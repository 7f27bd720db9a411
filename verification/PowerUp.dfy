// From power-up to the first step: the step counter holds 0, not 31, when no reset
// has set it, so the game begins in the middle of a step that nobody asked for.

module PowerUp {
  import opened Gym
  import opened Player
  import opened Stepping
  import opened Teleports
  import opened Words

  /** Until the game proper, the player waits on the start tile, facing down. */
  predicate Waiting(b: Board)
  {
    && b.game.state in {StartScreen, Fade} && b.game.direction == Down
    && b.game.step == 0 && b.game.frameCounter == 0
    && b.pos == Pos(START_X, START_Y, false)
  }

  lemma LatchEnds(b: Board, i: Input)
    requires Young(b, 18) && !i.reset
    ensures Frame(b, i).tile.state == Hold
  {
  }

  lemma HoldStays(b: Board, i: Input)
    requires Waiting(b) && b.tile.state == Hold && !i.reset
    ensures Frame(b, i).tile.state == Hold
  {
    StartIsOnATile();
  }

  lemma WaitingFrame(b: Board, i: Input)
    requires Waiting(b) && !i.reset && Frame(b, i).game.state != DrawMainGame
    ensures Waiting(Frame(b, i))
  {
  }

  lemma WaitStep(b: Board, m: nat, i: Input) returns (n: nat)
    requires Waiting(b) && (Young(b, m) || b.tile.state == Hold)
    requires !i.reset && Frame(b, i).game.state != DrawMainGame
    ensures Waiting(Frame(b, i)) && (Young(Frame(b, i), n) || Frame(b, i).tile.state == Hold)
  {
    n := m + 1;
    WaitingFrame(b, i);
    if b.tile.state == Hold {
      HoldStays(b, i);
    } else if m == 18 {
      LatchEnds(b, i);
    } else {
      YoungFrame(b, m, i);
    }
  }

  /** A run from power-up that has not left the start screen at once and has not come
      to the game proper yet. */
  ghost predicate Booting(ins: seq<Input>)
  {
    && ins != [] && ins[0].riseKey != KEY_ENTER && (forall k | 0 <= k < |ins| :: !ins[k].reset)
    && forall k | 0 <= k <= |ins| :: Run(POWER_UP, ins[..k]).game.state != DrawMainGame
  }

  lemma {:induction false} BootingWaits(ins: seq<Input>) returns (n: nat)
    requires Booting(ins)
    ensures var b := Run(POWER_UP, ins); Waiting(b) && (Young(b, n) || b.tile.state == Hold)
  {
    var l := |ins| - 1;
    var b := Run(POWER_UP, ins[..l]);
    assert ins[..|ins|] == ins;
    n := 0;
    if l == 0 {
      YoungStart(ins[0]);
    } else {
      assert forall k | 0 <= k <= l :: ins[..l][..k] == ins[..k];
      var m := BootingWaits(ins[..l]);
      n := WaitStep(b, m, ins[l]);
    }
  }

  lemma LastFade(b: Board, key: Key, n: nat)
    requires Waiting(b) && b.game.state == Fade && b.game.fade == 50
    requires Young(b, n) || b.tile.state == Hold
    ensures var c := Rise(b, key, false);
      c.game == Game(DrawMainGame, 0, Down, 0, 0) && c.tile.state == Hold && c.pos == b.pos
  {
    StartIsOnATile();
  }

  lemma NoTileSouth(y: U10)
    requires 315 < y <= 330
    ensures !OnTile(Point(303, y + 20))
  {
  }

  lemma DriftTile(t: Tile, p: Pos)
    requires p.x == 288 && 315 <= p.y <= 330
    requires t.state == Hold || (t.state == NotTile && p.y > 315)
    ensures var t' := NextTile(t, Corner(p)); t'.state == Hold || (t'.state == NotTile && p.y > 315)
  {
    if p.y > 315 {
      NoTileSouth(p.y);
    } else {
      StartIsOnATile();
    }
  }

  lemma PulseTile(b: Board, p: Press)
    ensures Pulse(b, p).tile == NextTile(b.tile, Corner(Pulse(b, p).pos))
  {
  }

  /** The board after k pulses of the walk that nobody asked for. */
  predicate Drifting(b: Board, k: nat)
  {
    && b.game.state == DrawMainGame && b.game.direction == Down && b.game.step == k
    && b.pos.x == 288 && b.pos.y == 315 + k / 2 && (b.pos.everyOther <==> k % 2 == 1)
    && (b.tile.state == Hold || (b.tile.state == NotTile && b.pos.y > 315))
  }

  /** The rising edge at which the game proper begins. */
  lemma GameBegins(ins: seq<Input>, key: Key)
    requires Booting(ins) && Run(POWER_UP, ins).game.state == Fade && Run(POWER_UP, ins).game.fade == 50
    ensures var b := Rise(Run(POWER_UP, ins), key, false);
      && b.game == Game(DrawMainGame, 0, Down, 0, 0) && b.tile.state == Hold
      && b.pos == Pos(START_X, START_Y, false) && Drifting(b, 0)
  {
    var n := BootingWaits(ins);
    LastFade(Run(POWER_UP, ins), key, n);
  }

  lemma DriftPulse(b: Board, p: Press, k: nat)
    requires Drifting(b, k) && k < 31 && !p.running && p.riseKey != KEY_ESC
    ensures Drifting(Pulse(b, p), k + 1)
  {
    FallMoves(b, p);
    PulseCounts(b, p);
    PulseTile(b, p);
    DriftTile(b.tile, Pulse(b, p).pos);
  }

  lemma {:induction false} DriftsSouth(b: Board, ps: seq<Press>, k: nat)
    requires Drifting(b, 0)
    requires k <= 31 && k <= |ps| && NoEscape(ps) && forall j | 0 <= j < |ps| :: !ps[j].running
    ensures Drifting(Pulses(b, ps[..k]), k)
  {
    if k > 0 {
      DriftsSouth(b, ps, k - 1);
      PulsesNext(b, ps, k);
      DriftPulse(Pulses(b, ps[..k - 1]), ps[k - 1], k - 1);
    }
  }

  lemma DriftRests(b: Board, k: nat)
    requires Drifting(b, k) && k <= 31
    ensures AtRest(b) <==> k == 31
    ensures k == 31 ==> b.pos == Pos(288, 330, true) && !OnGrid(b.pos) && !AtTile(b.tile)
  {
  }

  lemma FirstWalk(b: Board, ps: seq<Press>)
    requires Drifting(b, 0)
    requires |ps| == 31 && NoEscape(ps) && forall j | 0 <= j < 31 :: !ps[j].running
    ensures forall k | 0 <= k < 31 :: !AtRest(Pulses(b, ps[..k]))
    ensures var c := Pulses(b, ps);
      && AtRest(c) && c.game.direction == Down && !AtTile(c.tile)
      && c.pos == Pos(288, 330, true) && !OnGrid(c.pos)
  {
    forall k | 0 <= k < 31
      ensures !AtRest(Pulses(b, ps[..k]))
    {
      DriftsSouth(b, ps, k);
      DriftRests(Pulses(b, ps[..k]), k);
    }
    DriftsSouth(b, ps, 31);
    assert ps[..31] == ps;
    DriftRests(Pulses(b, ps), 31);
  }

  /** Whatever keys are pressed, short of escape, a player who does not run is walked
      15 pixels down before the game accepts a key, and then stands off the grid. */
  lemma PowerUpLeavesTheGrid(ins: seq<Input>, key: Key, ps: seq<Press>)
    requires Booting(ins) && Run(POWER_UP, ins).game.state == Fade && Run(POWER_UP, ins).game.fade == 50
    requires |ps| == 31 && NoEscape(ps) && forall j | 0 <= j < 31 :: !ps[j].running
    ensures forall k | 0 <= k < 31 :: !AtRest(Pulses(Rise(Run(POWER_UP, ins), key, false), ps[..k]))
    ensures var b := Pulses(Rise(Run(POWER_UP, ins), key, false), ps);
      && AtRest(b) && b.game.direction == Down && !AtTile(b.tile)
      && b.pos == Pos(288, 330, true) && !OnGrid(b.pos)
  {
    GameBegins(ins, key);
    FirstWalk(Rise(Run(POWER_UP, ins), key, false), ps);
  }

  // ------------------------------------------------------ after a reset

  predicate WaitingAfterReset(b: Board)
  {
    && b.game.state in {StartScreen, Fade} && b.game.direction == Up && b.game.step == 31
    && b.pos == Pos(288, 315, false)
  }

  lemma {:induction false} ResetWaits(b0: Board, i: Input, ins: seq<Input>)
    requires i.reset && forall k | 0 <= k < |ins| :: !ins[k].reset
    requires forall k | 0 <= k <= |ins| :: Run(Frame(b0, i), ins[..k]).game.state != DrawMainGame
    ensures WaitingAfterReset(Run(Frame(b0, i), ins))
  {
    if ins != [] {
      var l := |ins| - 1;
      assert ins[..|ins|] == ins && forall k | 0 <= k <= l :: ins[..l][..k] == ins[..k];
      ResetWaits(b0, i, ins[..l]);
    }
  }

  /** A game begun after a reset needs no such walk: the player is at rest at once, on
      the grid, at the start and facing up. */
  lemma {:induction false} ResetGameRests(b0: Board, i: Input, ins: seq<Input>, key: Key)
    requires i.reset && forall k | 0 <= k < |ins| :: !ins[k].reset
    requires forall k | 0 <= k <= |ins| :: Run(Frame(b0, i), ins[..k]).game.state != DrawMainGame
    requires Rise(Run(Frame(b0, i), ins), key, false).game.state == DrawMainGame
    ensures var b := Rise(Run(Frame(b0, i), ins), key, false);
      && AtRest(b) && b.game.direction == Up
      && b.pos == Pos(288, 315, false) && OnGrid(b.pos) && InRoom(b.pos)
  {
    ResetWaits(b0, i, ins);
  }

  // ------------------------------------------------------ such a run exists

  const IDLE := Input(false, 0, 0, false)
  const ENTER := Input(false, KEY_ENTER, 0, false)

  function Boot(n: nat): seq<Input> { [IDLE, ENTER] + seq(n, i => IDLE) }

  lemma RunNext(b: Board, ins: seq<Input>, i: Input)
    ensures Run(b, ins + [i]) == Frame(Run(b, ins), i)
  {
    assert (ins + [i])[..|ins|] == ins;
  }

  lemma FadeFrame(b: Board, n: nat)
    requires n < 50 && b.game == Game(Fade, n, Down, 0, 0)
    ensures Frame(b, IDLE).game == Game(Fade, n + 1, Down, 0, 0)
  {
  }

  lemma FirstFrames(b: Board)
    requires b.game == Game(StartScreen, 0, Down, 0, 0)
    ensures Frame(b, IDLE).game == b.game && Frame(b, ENTER).game == Game(Fade, 0, Down, 0, 0)
  {
  }

  lemma BootStarts()
    ensures Run(POWER_UP, [IDLE]).game == Game(StartScreen, 0, Down, 0, 0)
    ensures Run(POWER_UP, Boot(0)).game == Game(Fade, 0, Down, 0, 0)
  {
    FirstFrames(POWER_UP);
    FirstFrames(Frame(POWER_UP, IDLE));
    RunNext(POWER_UP, [], IDLE);
    RunNext(POWER_UP, [IDLE], ENTER);
    assert [] + [IDLE] == [IDLE] && Boot(0) == [IDLE] + [ENTER];
  }

  lemma {:induction false} BootFades(n: nat)
    requires n <= 50
    ensures Run(POWER_UP, Boot(n)).game == Game(Fade, n, Down, 0, 0)
  {
    if n == 0 {
      BootStarts();
    } else {
      BootFades(n - 1);
      RunNext(POWER_UP, Boot(n - 1), IDLE);
      FadeFrame(Run(POWER_UP, Boot(n - 1)), n - 1);
      assert Boot(n) == Boot(n - 1) + [IDLE];
    }
  }

  lemma BootIsBooting()
    ensures Booting(Boot(50)) && Run(POWER_UP, Boot(50)).game == Game(Fade, 50, Down, 0, 0)
  {
    BootFades(50);
    forall k | 0 <= k <= 52
      ensures Run(POWER_UP, Boot(50)[..k]).game.state != DrawMainGame
    {
      if k >= 2 {
        BootFades(k - 2);
        assert Boot(50)[..k] == Boot(k - 2);
      } else if k == 1 {
        BootStarts();
        assert Boot(50)[..1] == [IDLE];
      }
    }
  }

  /** From power-up: after the start screen and that first walk, a key that only the
      falling edge sees moves the resting player by a pixel and starts no step. */
  lemma KeyLostBetweenEdges(ps: seq<Press>)
    requires |ps| == 31 && NoEscape(ps) && forall j | 0 <= j < 31 :: !ps[j].running
    ensures var b := Pulses(Rise(Run(POWER_UP, Boot(50)), 0, false), ps);
      && AtRest(b) && AtRest(Pulse(b, Press(KEY_S, 0, false)))
      && b.pos.y == 330 && Pulse(b, Press(KEY_S, 0, false)).pos.y == 331
  {
    BootIsBooting();
    PowerUpLeavesTheGrid(Boot(50), 0, ps);
    var b := Pulses(Rise(Run(POWER_UP, Boot(50)), 0, false), ps);
    FallMoves(b, Press(KEY_S, 0, false));
    RestVerdict(b, Press(KEY_S, 0, false));
  }
}
