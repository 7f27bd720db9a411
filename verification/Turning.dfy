// From a key to a step: turning to face its direction, and what holding a key does
// from rest, in the key codes and coordinates of the screen.

module Turning {
  import opened Gym
  import opened Player
  import opened PowerUp
  import opened Statues
  import opened Stepping
  import opened Words

  /** At rest a direction key that is not the facing one turns the player, and no
      other key does; only the facing key starts a step. */
  lemma RestPulse(b: Board, p: Press)
    requires AtRest(b) && p.riseKey != KEY_ESC
    ensures var g := Pulse(b, p).game;
      && g.state == DrawMainGame
      && g.direction == (match p.riseKey
                         case 0x16 => Down
                         case 0x1A => Up
                         case 0x04 => Left
                         case 0x07 => Right
                         case _ => b.game.direction)
      && g.step == (if p.riseKey in {0x16, 0x1A, 0x04, 0x07} && g.direction == b.game.direction then 0 else 31)
      && (g.direction != b.game.direction ==> g.frameCounter == 0)
  {
  }

  /** The escape key, in a step or not, leads back to the start screen, and the next
      falling edge puts the player back on the start position. */
  lemma EscapeRestarts(b: Board, p: Press, p': Press)
    requires b.game.state == DrawMainGame
    ensures Pulse(b, p).game.state == (if p.riseKey == 0x29 then StartScreen else DrawMainGame)
    ensures p.riseKey == 0x29 ==> Pulse(Pulse(b, p), p').pos == Pos(288, 315, false)
  {
  }

  function Round(a: nat, k: nat): nat { (a + k) % 40 }

  lemma RoundNext(a: nat, k: nat)
    ensures Round(a, k) < 40 && Round(a, k + 1) == if Round(a, k) == 39 then 0 else Round(a, k) + 1
  {
  }

  lemma AnimationPulse(b: Board, p: Press)
    requires b.game.state == DrawMainGame && b.game.frameCounter < 40
    requires b.game.step != 31 || Wish(p.riseKey) == Some(b.game.direction)
    ensures Pulse(b, p).game.frameCounter == if b.game.frameCounter == 39 then 0 else b.game.frameCounter + 1
  {
  }

  /** The animation counter goes round 40 pulses, through as many steps as it takes. */
  lemma {:induction false} StepAnimates(b: Board, ps: seq<Press>, k: nat)
    requires k <= |ps| <= 32 && ps != [] && Accepts(b, ps[0]) && NoEscape(ps) && b.game.frameCounter < 40
    ensures Pulses(b, ps[..k]).game.frameCounter == Round(b.game.frameCounter, k)
  {
    if k == 0 {
      assert ps[..0] == [];
    } else {
      var c := Pulses(b, ps[..k - 1]);
      StepAnimates(b, ps, k - 1);
      if k > 1 {
        StepLasts(b, ps, k - 1);
      }
      RoundNext(b.game.frameCounter, k - 1);
      PulsesNext(b, ps, k);
      AnimationPulse(c, ps[k - 1]);
    }
  }

  // ---------------------------------------------------------- holding a key

  predicate Holds(ps: seq<Press>, key: Key)
  {
    forall j | 0 <= j < |ps| :: ps[j] == Press(key, key, false)
  }

  /** q is p moved by g pixels the way the key points. */
  predicate MovedBy(p: Pos, q: Pos, key: Key, g: int)
  {
    match key
    case 0x16 => q.x == p.x && q.y == (p.y + g) % 1024
    case 0x1A => q.x == p.x && q.y == (p.y - g) % 1024
    case 0x04 => q.x == (p.x - g) % 1024 && q.y == p.y
    case 0x07 => q.x == (p.x + g) % 1024 && q.y == p.y
    case _ => false
  }

  /** The pulse that turns him moves him nowhere. */
  lemma TurningPulse(b: Board, key: Key)
    requires AtRest(b) && !AtTile(b.tile) && Wish(key).Some? && Wish(key).value != b.game.direction
    ensures var c := Pulse(b, Press(key, key, false));
      && AtRest(c) && c.game.direction == Wish(key).value
      && c.pos == b.pos.(everyOther := !b.pos.everyOther)
  {
    FallMoves(b, Press(key, key, false));
  }

  /** A step with the key held. */
  lemma HeldStep(b: Board, ps: seq<Press>, key: Key)
    requires AtRest(b) && Wish(key) == Some(b.game.direction) && Holds(ps, key) && Uninterrupted(b, ps)
    ensures AtRest(Pulses(b, ps)) && Pulses(b, ps).game.direction == b.game.direction
    ensures Pulses(b, ps).pos == Shift(b.pos, b.game.direction, Gone(b.pos, b.game.direction, 16))
  {
    StepDisplacement(b, ps);
    WalkersDoNotRun(b.pos.everyOther, ps);
    GoneIs(b.pos, b.game.direction, 16);
    StepLasts(b, ps, 32);
    assert ps[..32] == ps;
  }

  lemma ShiftIsMove(p: Pos, key: Key, g: int)
    requires Wish(key).Some?
    ensures MovedBy(p, Shift(p, Wish(key).value, g), key, g)
  {
  }

  lemma {:induction false} PulsesAfter(b: Board, p: Press, ps: seq<Press>)
    ensures Pulses(b, [p] + ps) == Pulses(Pulse(b, p), ps)
  {
    if ps == [] {
      OnePulse(b, p);
      assert [p] + ps == [p];
    } else {
      PulsesAfter(b, p, ps[..|ps| - 1]);
      assert ([p] + ps)[..|ps|] == [p] + ps[..|ps| - 1];
    }
  }

  lemma GoneForgetsPhase(p: Pos, d: Direction, phase: bool)
    ensures Gone(p.(everyOther := phase), d, 16) == Gone(p, d, 16)
  {
    PhaseIsForgotten(p, d, phase, 16);
  }

  lemma {:induction false} PhaseIsForgotten(p: Pos, d: Direction, phase: bool, m: nat)
    ensures Gone(p.(everyOther := phase), d, m) == Gone(p, d, m)
  {
    if m > 0 {
      PhaseIsForgotten(p, d, phase, m - 1);
    }
  }

  lemma HeldFacing(b: Board, key: Key, ps: seq<Press>)
    requires AtRest(b) && Wish(key) == Some(b.game.direction) && Holds(ps, key) && Uninterrupted(b, ps)
    ensures AtRest(Pulses(b, ps)) && Pulses(b, ps).game.direction == b.game.direction
    ensures MovedBy(b.pos, Pulses(b, ps).pos, key, Gone(b.pos, b.game.direction, 16))
  {
    HeldStep(b, ps, key);
    ShiftIsMove(b.pos, key, Gone(b.pos, b.game.direction, 16));
  }

  lemma MovedForgetsPhase(p: Pos, q: Pos, key: Key, g: int, phase: bool)
    ensures MovedBy(p.(everyOther := phase), q, key, g) <==> MovedBy(p, q, key, g)
  {
  }

  /** Whatever a resting player faces, a direction key held for one step, and for the
      pulse that turns him if he must turn, moves him 16 pixels its way, or as far as
      the first obstacle, and leaves him at rest facing its way. */
  lemma HeldKey(b: Board, key: Key, ps: seq<Press>)
    requires AtRest(b) && !AtTile(b.tile) && key in {0x16, 0x1A, 0x04, 0x07} && Holds(ps, key)
    requires if Wish(key) == Some(b.game.direction) then Uninterrupted(b, ps)
             else |ps| == 33 && Uninterrupted(Pulse(b, ps[0]), ps[1..])
    ensures var c := Pulses(b, ps);
      var d := Wish(key).value;
      && AtRest(c) && c.game.direction == d
      && MovedBy(b.pos, c.pos, key, Gone(b.pos, d, 16))
  {
    if Wish(key) == Some(b.game.direction) {
      HeldFacing(b, key, ps);
    } else {
      var d, c := Wish(key).value, Pulse(b, ps[0]);
      TurningPulse(b, key);
      HeldFacing(c, key, ps[1..]);
      PulsesAfter(b, ps[0], ps[1..]);
      assert ps == [ps[0]] + ps[1..];
      GoneForgetsPhase(b.pos, d, c.pos.everyOther);
      MovedForgetsPhase(b.pos, Pulses(b, ps).pos, key, Gone(b.pos, d, 16), c.pos.everyOther);
    }
  }

  /** On the grid: a held key leads exactly to the next cell its way if that is in a
      room and not in a statue, and nowhere otherwise, but for the pixel below a
      north wall. */
  lemma HeldKeyOnGrid(b: Board, key: Key, ps: seq<Press>)
    requires AtRest(b) && !AtTile(b.tile) && key in {0x16, 0x1A, 0x04, 0x07} && Holds(ps, key)
    requires if Wish(key) == Some(b.game.direction) then Uninterrupted(b, ps)
             else |ps| == 33 && Uninterrupted(Pulse(b, ps[0]), ps[1..])
    requires OnGrid(b.pos) && InRoom(b.pos) && !Inside(b.pos)
    ensures var q := Shift(b.pos, Wish(key).value, 16);
      MovedBy(b.pos, Pulses(b, ps).pos, key,
              if InRoom(q) && !Inside(q) then 16 else if key == 0x1A && !InRoom(q) then 1 else 0)
  {
    HeldKey(b, key, ps);
    CellAhead(b.pos, Wish(key).value);
  }

  // ------------------------------------------- from power-up into the statue

  /** After the walk of power-up the player who is turned west and runs on stands in
      a statue. */
  lemma PowerUpMeetsStatue(ps: seq<Press>, held: seq<Press>)
    requires |ps| == 31 && NoEscape(ps) && forall j | 0 <= j < 31 :: !ps[j].running
    requires held == [Press(KEY_A, KEY_A, true)] + RUN_A
    ensures var b := Pulses(Rise(Run(POWER_UP, Boot(50)), 0, false), ps);
      !Inside(b.pos) && Inside(Pulses(b, held).pos)
  {
    BootIsBooting();
    PowerUpLeavesTheGrid(Boot(50), 0, ps);
    var b := Pulses(Rise(Run(POWER_UP, Boot(50)), 0, false), ps);
    var p := Press(KEY_A, KEY_A, true);
    RestPulse(b, p);
    FallMoves(b, p);
    PulsesAfter(b, p, RUN_A);
    PulseTile(b, p);
    NoTileWest(303);
    StatueIsEntered(Pulse(b, p));
  }
}
