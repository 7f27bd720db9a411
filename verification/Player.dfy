// The three clocked machines that move the player, wired together: the game
// state machine and the teleport machine on the rising edge of VGA_VS, the
// position registers on its falling edge. Registers take the values their
// inputs had just before the edge. The bounds checker, whose instance is
// commented out in the source, is wired as that comment says.

module Player {
  import opened Gym
  import opened Words

  type U6 = i: int | 0 <= i < 64
  type U5 = i: int | 0 <= i < 32
  type Key = i: int | 0 <= i < 256

  const KEY_W: Key := 0x1A
  const KEY_A: Key := 0x04
  const KEY_S: Key := 0x16
  const KEY_D: Key := 0x07
  const KEY_ENTER: Key := 0x28
  const KEY_ESC: Key := 0x29

  // A five-bit literal of 39 is 7.
  const SPIN_END: U6 := 39 % 32

  // ------------------------------------------------------------- gameFSM

  datatype GameState = StartScreen | FlashPressEnter | Fade | DrawMainGame | HoldGame

  datatype Game = Game(state: GameState, fade: U6, direction: Direction, frameCounter: U6, step: U5)

  const GAME_RESET := Game(StartScreen, 0, Up, 0, 31)

  /** The direction a key asks for. */
  function Wish(key: Key): Option<Direction>
  {
    if key == KEY_S then Some(Down)
    else if key == KEY_W then Some(Up)
    else if key == KEY_A then Some(Left)
    else if key == KEY_D then Some(Right)
    else None
  }

  /** charIsMoving: in mid-step, or a key in the facing direction starts one. */
  predicate Moving(g: Game, key: Key)
  {
    g.state == DrawMainGame && (g.step != 31 || Wish(key) == Some(g.direction))
  }

  function NextGame(g: Game, key: Key): Game
  {
    match g.state
    case StartScreen => g.(state := if key == KEY_ENTER then Fade else StartScreen)
    case FlashPressEnter => g.(state := if key == KEY_ENTER then Fade else StartScreen)
    case Fade => if g.fade == 50 then g.(state := DrawMainGame, fade := 0) else g.(fade := (g.fade + 1) % 64)
    case DrawMainGame =>
      var g1 := g.(state := if key == KEY_ESC then StartScreen else DrawMainGame);
      var tick := (g.frameCounter + 1) % 64;
      var g2 :=
        if g.step != 31 then g1.(frameCounter := tick, step := g.step + 1)
        else match Wish(key)
          case None => g1
          case Some(d) =>
            if g.direction == d then g1.(frameCounter := tick, step := 0)
            else g1.(direction := d, frameCounter := 0);
      if g.frameCounter == 39 then g2.(frameCounter := 0) else g2
    case HoldGame => g
  }

  // -------------------------------------------------------- gymTileLogic

  datatype TileState = NotTile | Prespin | Teleport | Postspin | Latch | Hold

  datatype Tile = Tile(state: TileState, spin: U6, at: Point)

  const TILE_RESET := Tile(NotTile, 0, Point(0, 0))

  predicate AtTile(t: Tile) { t.state in {Prespin, Teleport, Postspin, Latch} }

  /** `here` is the corner of the character box. VGA_VS is low just before its
      rising edge, so the latch state always lasts one frame. */
  function NextTile(t: Tile, here: Point): Tile
  {
    match t.state
    case NotTile => t.(state := if OnTile(here) then Prespin else NotTile, at := here)
    case Prespin =>
      if t.spin == SPIN_END then Tile(Teleport, 0, here) else Tile(Prespin, (t.spin + 1) % 64, here)
    case Teleport => t.(state := Postspin, at := Partner(here))
    case Postspin =>
      t.(state := if t.spin == SPIN_END then Latch else Postspin,
         spin := if t.spin == 19 then 0 else (t.spin + 1) % 64)
    case Latch => t.(state := Hold)
    case Hold => t.(state := if OnTile(here) then Hold else NotTile)
  }

  // --------------------------------------------------------- frameDrawer

  datatype Pos = Pos(x: U10, y: U10, everyOther: bool)

  const START_X: U10 := 288
  const START_Y: U10 := 315

  /** One pixel in the facing direction. */
  function Shift(p: Pos, d: Direction, k: int): Pos
  {
    match d
    case Down => p.(y := Add(p.y, k))
    case Up => p.(y := Add(p.y, -k))
    case Left => p.(x := Add(p.x, -k))
    case Right => p.(x := Add(p.x, k))
  }

  function NextPos(p: Pos, g: Game, t: Tile, key: Key, running: bool): Pos
  {
    match g.state
    case StartScreen => Pos(START_X, START_Y, false)
    case DrawMainGame =>
      var moved :=
        if Moving(g, key) && !AtBounds(g.direction, p.x, p.y) && (p.everyOther || running)
        then Shift(p, g.direction, 1) else p;
      var placed := if AtTile(t) then moved.(x := Add(t.at.x, -15), y := Add(t.at.y, -20)) else moved;
      placed.(everyOther := !p.everyOther)
    case HoldGame => Pos(START_X, START_Y, false)   // its state number is also 0
    case _ => p
  }

  // ------------------------------------------------------- the whole board

  datatype Board = Board(game: Game, tile: Tile, pos: Pos)

  function Corner(p: Pos): Point { Point(Add(p.x, 15), Add(p.y, 20)) }

  function Rise(b: Board, key: Key, reset: bool): Board
  {
    if reset then Board(GAME_RESET, TILE_RESET, b.pos)
    else Board(NextGame(b.game, key), NextTile(b.tile, Corner(b.pos)), b.pos)
  }

  function Fall(b: Board, key: Key, running: bool): Board
  {
    b.(pos := NextPos(b.pos, b.game, b.tile, key, running))
  }

  /** What the outside world shows the board during one frame: the two edges may
      see different keys. */
  datatype Input = Input(reset: bool, riseKey: Key, fallKey: Key, running: bool)

  function Frame(b: Board, i: Input): Board
  {
    Fall(Rise(b, i.riseKey, i.reset), i.fallKey, i.running)
  }

  function Run(b: Board, ins: seq<Input>): Board
  {
    if ins == [] then b else Frame(Run(b, ins[..|ins| - 1]), ins[|ins| - 1])
  }

  /** The board one frame after a reset, whatever the position was. */
  const AFTER_RESET := Board(GAME_RESET, TILE_RESET, Pos(START_X, START_Y, false))

  lemma ResetFrame(b: Board, i: Input)
    requires i.reset
    ensures Frame(b, i) == AFTER_RESET
  {
  }

  // ------------------------------------------------------------ confinement

  predicate InRoom(p: Pos) { InColumn(p.x) && InRow(p.y) }

  /** What every run keeps: the player is in a room; a spinning player is on a
      tile, and so is the place the teleport machine is about to put him. */
  predicate Safe(b: Board)
  {
    && InRoom(b.pos)
    && (b.tile.state in {Prespin, Teleport} ==> OnTile(Corner(b.pos)))
    && (AtTile(b.tile) ==> OnTile(b.tile.at))
  }

  lemma StepStaysInRoom(p: Pos, d: Direction)
    requires InRoom(p) && !AtBounds(d, p.x, p.y)
    ensures InRoom(Shift(p, d, 1))
  {
  }

  lemma StartIsOnATile()
    ensures OnTile(Point(START_X + 15, START_Y + 20))
  {
    assert PAIRS[0].0 == Point(START_X + 15, START_Y + 20);
  }

  lemma RiseIsSafe(b: Board, key: Key, reset: bool)
    requires Safe(b)
    ensures Safe(Rise(b, key, reset))
  {
    if !reset && b.tile.state == Teleport {
      PartnerIsInvolution(Corner(b.pos));
    }
  }

  lemma PlacedIsSafe(b: Board, key: Key, running: bool)
    requires Safe(b) && b.game.state == DrawMainGame && AtTile(b.tile)
    ensures Safe(Fall(b, key, running))
  {
    TilesAreInRooms(b.tile.at);
  }

  lemma MovedIsSafe(b: Board, key: Key, running: bool)
    requires Safe(b) && b.game.state == DrawMainGame && !AtTile(b.tile)
    ensures Safe(Fall(b, key, running))
  {
    if !AtBounds(b.game.direction, b.pos.x, b.pos.y) {
      StepStaysInRoom(b.pos, b.game.direction);
    }
  }

  lemma RestartIsSafe(b: Board, key: Key, running: bool)
    requires Safe(b) && b.game.state in {StartScreen, HoldGame}
    ensures Safe(Fall(b, key, running))
  {
    StartIsOnATile();
  }

  lemma FallIsSafe(b: Board, key: Key, running: bool)
    requires Safe(b)
    ensures Safe(Fall(b, key, running))
  {
    if b.game.state == DrawMainGame {
      if AtTile(b.tile) {
        PlacedIsSafe(b, key, running);
      } else {
        MovedIsSafe(b, key, running);
      }
    } else if b.game.state in {StartScreen, HoldGame} {
      RestartIsSafe(b, key, running);
    }
  }

  /** From any safe board the player never leaves the rooms, whatever keys, speeds
      and resets, and the teleport table is never asked about a place that is not a
      tile. */
  lemma {:induction false} PlayerIsConfined(b0: Board, ins: seq<Input>)
    requires Safe(b0)
    ensures Safe(Run(b0, ins))
  {
    if ins != [] {
      var b := Run(b0, ins[..|ins| - 1]);
      var i := ins[|ins| - 1];
      PlayerIsConfined(b0, ins[..|ins| - 1]);
      RiseIsSafe(b, i.riseKey, i.reset);
      FallIsSafe(Rise(b, i.riseKey, i.reset), i.fallKey, i.running);
    }
  }

  /** The states the game is ever in, and the bounds of its counters: the animation
      counter stays in the range for which a picture is chosen. */
  predicate Proper(g: Game)
  {
    g.state in {StartScreen, Fade, DrawMainGame} && g.frameCounter < 40 && g.fade <= 50
  }

  lemma {:induction false} GameIsProper(b0: Board, ins: seq<Input>)
    requires Proper(b0.game)
    ensures Proper(Run(b0, ins).game)
  {
    if ins != [] {
      GameIsProper(b0, ins[..|ins| - 1]);
    }
  }

  /** Where the game starts: a reset frame, or the first frame after power-up, when
      every register holds 0. The position registers have no reset, only the start
      screen sets them, so a key that leaves it at the very first edge leaves the
      player outside the rooms. */
  const POWER_UP := Board(Game(StartScreen, 0, Down, 0, 0), Tile(NotTile, 0, Point(0, 0)), Pos(0, 0, false))

  lemma ResetIsSafe()
    ensures Safe(AFTER_RESET)
  {
    StartIsOnATile();
  }

  lemma PowerUpIsSafe(i: Input)
    ensures Safe(Frame(POWER_UP, i)) <==> i.reset || i.riseKey != KEY_ENTER
  {
    StartIsOnATile();
    assert Frame(POWER_UP, i).pos == if i.reset || i.riseKey != KEY_ENTER
                                     then Pos(START_X, START_Y, false) else Pos(0, 0, false);
  }
}
