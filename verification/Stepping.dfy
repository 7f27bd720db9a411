// How far one step goes. A pulse of VGA_VS is its falling edge, where the position
// moves, and the rising edge two lines later, where the step counter moves. A key
// may change in between, so a pulse has two keys.

module Stepping {
  import opened Gym
  import opened Player
  import opened Words

  datatype Press = Press(fallKey: Key, riseKey: Key, running: bool)

  function Pulse(b: Board, p: Press): Board
  {
    Rise(Fall(b, p.fallKey, p.running), p.riseKey, false)
  }

  function Pulses(b: Board, ps: seq<Press>): Board
  {
    if ps == [] then b else Pulse(Pulses(b, ps[..|ps| - 1]), ps[|ps| - 1])
  }

  lemma PulsesNext(b: Board, ps: seq<Press>, k: nat)
    requires 0 < k <= |ps|
    ensures Pulses(b, ps[..k]) == Pulse(Pulses(b, ps[..k - 1]), ps[k - 1])
    ensures ps[..k] == ps[..k - 1] + [ps[k - 1]]
  {
    assert ps[..k][..k - 1] == ps[..k - 1];
  }

  // ------------------------------------------------------ how long a step lasts

  predicate AtRest(b: Board) { b.game.state == DrawMainGame && b.game.step == 31 }

  /** The rising edge that starts a step: a key in the facing direction. */
  predicate Accepts(b: Board, p: Press) { AtRest(b) && Wish(p.riseKey) == Some(b.game.direction) }

  predicate NoEscape(ps: seq<Press>) { forall j | 0 <= j < |ps| :: ps[j].riseKey != KEY_ESC }

  /** The falling edge sees the facing key, or a step under way. */
  lemma PulseCounts(b: Board, p: Press)
    requires b.game.state == DrawMainGame && p.riseKey != KEY_ESC
    requires b.game.step != 31 || Wish(p.riseKey) == Some(b.game.direction)
    ensures Moving(b.game, p.riseKey)
    ensures var g := Pulse(b, p).game;
      g.state == DrawMainGame && g.direction == b.game.direction
      && g.step == if b.game.step == 31 then 0 else b.game.step + 1
  {
  }

  /** Walls, tiles and later keys do not matter: an accepted step drives the moving
      signal at 32 rising edges in a row, in one direction, and then the player is
      at rest, not before. The falling edges see it too, except that the first one
      sees it only if its own key is the facing one. */
  lemma {:induction false} StepLasts(b: Board, ps: seq<Press>, k: nat)
    requires 0 < k <= |ps| <= 32 && Accepts(b, ps[0]) && NoEscape(ps)
    ensures var g := Pulses(b, ps[..k]).game;
      && g.state == DrawMainGame && g.direction == b.game.direction
      && g.step == k - 1 && (AtRest(Pulses(b, ps[..k])) <==> k == 32)
    ensures Moving(Pulses(b, ps[..k - 1]).game, ps[k - 1].riseKey)
    ensures Moving(Pulses(b, ps[..k - 1]).game, ps[k - 1].fallKey)
       <==> k > 1 || Wish(ps[0].fallKey) == Some(b.game.direction)
  {
    if k > 1 {
      StepLasts(b, ps, k - 1);
    }
    PulsesNext(b, ps, k);
    PulseCounts(Pulses(b, ps[..k - 1]), ps[k - 1]);
  }

  // ------------------------------------------------------ how far a step goes

  predicate PhaseAt(phase: bool, k: nat) { phase == (k % 2 == 0) }

  /** The k-th pulse moves a pixel unless something stands in the way: every other
      one does, and a running one, but the first only if its falling edge saw the
      facing key. */
  predicate Tries(phase: bool, d: Direction, p: Press, k: nat)
  {
    (k > 0 || Wish(p.fallKey) == Some(d)) && (PhaseAt(phase, k) || p.running)
  }

  function Attempts(phase: bool, d: Direction, ps: seq<Press>): nat
  {
    if ps == [] then 0
    else Attempts(phase, d, ps[..|ps| - 1]) + if Tries(phase, d, ps[|ps| - 1], |ps| - 1) then 1 else 0
  }

  function OffPhaseRuns(phase: bool, ps: seq<Press>): nat
  {
    if ps == [] then 0
    else OffPhaseRuns(phase, ps[..|ps| - 1])
         + if !PhaseAt(phase, |ps| - 1) && ps[|ps| - 1].running then 1 else 0
  }

  /** The pixel lost when the first falling edge missed the key. */
  predicate MissesFirst(phase: bool, d: Direction, p: Press)
  {
    Wish(p.fallKey) != Some(d) && (phase || p.running)
  }

  lemma {:induction false} AttemptsAre(phase: bool, d: Direction, ps: seq<Press>)
    requires ps != []
    ensures Attempts(phase, d, ps)
         == OffPhaseRuns(phase, ps) + (if phase then (|ps| + 1) / 2 else |ps| / 2)
            - (if MissesFirst(phase, d, ps[0]) then 1 else 0)
  {
    var n := |ps| - 1;
    if n > 0 {
      AttemptsAre(phase, d, ps[..n]);
    } else {
      assert ps[..0] == [];
    }
  }

  /** Up to m pixels, one at a time, as long as nothing stands in the way. */
  function Advanced(p: Pos, d: Direction, m: nat): Pos
  {
    if m == 0 then p
    else
      var q := Advanced(p, d, m - 1);
      if AtBounds(d, q.x, q.y) then q else Shift(q, d, 1)
  }

  lemma {:induction false} AdvancedKeepsPhase(p: Pos, d: Direction, m: nat, phase: bool)
    ensures Advanced(p, d, m).everyOther == p.everyOther
    ensures Advanced(p.(everyOther := phase), d, m) == Advanced(p, d, m).(everyOther := phase)
  {
    if m > 0 {
      AdvancedKeepsPhase(p, d, m - 1, phase);
    }
  }

  /** No tile takes the player over during the step. One he reaches with the last
      pixel may do so at the last pulse, if that pulse moves no pixel anyhow. */
  ghost predicate Uninterrupted(b: Board, ps: seq<Press>)
  {
    && |ps| == 32 && NoEscape(ps)
    && (forall j | 0 <= j < 31 :: !AtTile(Pulses(b, ps[..j]).tile))
    && (AtTile(Pulses(b, ps[..31]).tile) ==> !Tries(b.pos.everyOther, b.game.direction, ps[31], 31))
  }

  predicate InStep(pos: Pos, b: Board, ps: seq<Press>)
  {
    pos == Advanced(b.pos, b.game.direction, Attempts(b.pos.everyOther, b.game.direction, ps)).(
             everyOther := PhaseAt(b.pos.everyOther, |ps|))
  }

  lemma FallMoves(b: Board, p: Press)
    requires b.game.state == DrawMainGame && !AtTile(b.tile)
    ensures Pulse(b, p).pos
         == (if Moving(b.game, p.fallKey) && !AtBounds(b.game.direction, b.pos.x, b.pos.y)
                && (b.pos.everyOther || p.running)
             then Shift(b.pos, b.game.direction, 1) else b.pos).(everyOther := !b.pos.everyOther)
  {
  }

  lemma AddBack(x: U10, k: int)
    ensures Add(Add(x, k), -k) == x
  {
    assert (x + k) % 1024 - k == x - 1024 * ((x + k) / 1024);
  }

  /** A tile that has just taken the player over holds him where he is. */
  lemma JustReached(b: Board, p: Press, p': Press)
    requires !AtTile(b.tile) && AtTile(Pulse(b, p).tile) && Pulse(b, p).game.state == DrawMainGame
    ensures Pulse(Pulse(b, p), p').pos == Pulse(b, p).pos.(everyOther := !Pulse(b, p).pos.everyOther)
  {
    var c := Pulse(b, p);
    assert c.tile.at == Corner(c.pos);
    AddBack(c.pos.x, 15);
    AddBack(c.pos.y, 20);
  }

  /** One pulse of the step, at a board the tiles have not taken over. */
  lemma FreePulse(c: Board, b: Board, ps: seq<Press>, p: Press)
    requires InStep(c.pos, b, ps) && !AtTile(c.tile)
    requires c.game.state == DrawMainGame && c.game.direction == b.game.direction
    requires Moving(c.game, p.fallKey) <==> ps != [] || Wish(p.fallKey) == Some(b.game.direction)
    ensures InStep(Pulse(c, p).pos, b, ps + [p])
  {
    assert (ps + [p])[..|ps|] == ps;
    FallMoves(c, p);
  }

  lemma HeldPulse(c: Board, c': Board, b: Board, ps: seq<Press>, p: Press)
    requires InStep(c.pos, b, ps) && !Tries(b.pos.everyOther, b.game.direction, p, |ps|)
    requires c'.pos == c.pos.(everyOther := !c.pos.everyOther)
    ensures InStep(c'.pos, b, ps + [p])
  {
    assert (ps + [p])[..|ps|] == ps;
  }

  lemma {:induction false} StepCourse(b: Board, ps: seq<Press>, k: nat)
    requires Uninterrupted(b, ps) && Accepts(b, ps[0]) && k <= 32
    ensures InStep(Pulses(b, ps[..k]).pos, b, ps[..k])
  {
    if k == 0 {
      assert Attempts(b.pos.everyOther, b.game.direction, []) == 0;
    } else {
      var c := Pulses(b, ps[..k - 1]);
      StepCourse(b, ps, k - 1);
      StepLasts(b, ps, k);
      PulsesNext(b, ps, k);
      if k > 1 {
        StepLasts(b, ps, k - 1);
      }
      if AtTile(c.tile) {
        PulsesNext(b, ps, 31);
        JustReached(Pulses(b, ps[..30]), ps[30], ps[31]);
        HeldPulse(c, Pulse(c, ps[31]), b, ps[..31], ps[31]);
      } else {
        FreePulse(c, b, ps[..k - 1], ps[k - 1]);
      }
    }
  }

  /** The pixels of a whole step with nothing in the way. */
  function StepPixels(b: Board, ps: seq<Press>): nat
    requires ps != []
  {
    16 + OffPhaseRuns(b.pos.everyOther, ps)
    - if MissesFirst(b.pos.everyOther, b.game.direction, ps[0]) then 1 else 0
  }

  lemma StepEnds(pos: Pos, b: Board, ps: seq<Press>)
    requires InStep(pos, b, ps) && |ps| == 32
    ensures pos == Advanced(b.pos, b.game.direction, StepPixels(b, ps))
  {
    AttemptsAre(b.pos.everyOther, b.game.direction, ps);
    AdvancedKeepsPhase(b.pos, b.game.direction, Attempts(b.pos.everyOther, b.game.direction, ps), b.pos.everyOther);
  }

  /** Every step that no tile interrupts goes 16 pixels, plus one for each off-phase
      pulse spent running, minus one exactly when the first falling edge missed the
      key and would have moved, or stops at the first wall or statue on its way. */
  lemma StepDisplacement(b: Board, ps: seq<Press>)
    requires Uninterrupted(b, ps) && Accepts(b, ps[0])
    ensures Pulses(b, ps).pos == Advanced(b.pos, b.game.direction, StepPixels(b, ps))
  {
    StepCourse(b, ps, 32);
    assert ps[..32] == ps;
    StepEnds(Pulses(b, ps).pos, b, ps);
  }

  lemma {:induction false} OffPhaseIsHalf(phase: bool, ps: seq<Press>)
    ensures OffPhaseRuns(phase, ps) <= if phase then |ps| / 2 else (|ps| + 1) / 2
  {
    if ps != [] {
      OffPhaseIsHalf(phase, ps[..|ps| - 1]);
    }
  }

  // ------------------------------------------------------ where the walls are

  lemma AddTwice(a: U10, j: int, k: int)
    ensures Add(Add(a, j), k) == Add(a, j + k)
  {
    var q := (a + j) / 1024;
    assert a + j + k == Add(a, j) + k + 1024 * q;
    ModOffset(Add(a, j) + k, q);
  }

  lemma ModOffset(a: int, q: int)
    ensures (a + 1024 * q) % 1024 == a % 1024
  {
  }

  lemma ShiftTwice(p: Pos, d: Direction, j: int, k: int)
    ensures Shift(Shift(p, d, j), d, k) == Shift(p, d, j + k)
  {
    AddTwice(p.x, j, k);
    AddTwice(p.y, j, k);
    AddTwice(p.x, -j, -k);
    AddTwice(p.y, -j, -k);
  }

  predicate BlockedAt(p: Pos, d: Direction, k: int)
  {
    AtBounds(d, Shift(p, d, k).x, Shift(p, d, k).y)
  }

  /** With nothing in the way all the pixels are gone; behind the first obstacle
      none is. */
  lemma {:induction false} AdvancedIs(p: Pos, d: Direction, m: nat, stop: nat)
    requires forall k | 0 <= k < stop :: !BlockedAt(p, d, k)
    requires stop < m ==> BlockedAt(p, d, stop)
    ensures Advanced(p, d, m) == Shift(p, d, if m < stop then m else stop)
  {
    if m > 0 {
      AdvancedIs(p, d, m - 1, if m - 1 < stop then m - 1 else stop);
      if m <= stop {
        assert !BlockedAt(p, d, m - 1);
        ShiftTwice(p, d, m - 1, 1);
      }
    }
  }

  /** How many of m pixels are gone before the first obstacle. */
  function Gone(p: Pos, d: Direction, m: nat): nat
  {
    if m == 0 then 0
    else
      var g := Gone(p, d, m - 1);
      if BlockedAt(p, d, g) then g else g + 1
  }

  lemma {:induction false} GoneIs(p: Pos, d: Direction, m: nat)
    ensures Gone(p, d, m) <= m && (forall k | 0 <= k < Gone(p, d, m) :: !BlockedAt(p, d, k))
    ensures Gone(p, d, m) < m ==> BlockedAt(p, d, Gone(p, d, m))
    ensures Advanced(p, d, m) == Shift(p, d, Gone(p, d, m))
  {
    if m > 0 {
      GoneIs(p, d, m - 1);
    }
    AdvancedIs(p, d, m, Gone(p, d, m));
  }

  // ------------------------------------------------------ staying on the grid

  predicate SameCell(p: Pos, q: Pos) { p.x % 16 == q.x % 16 && p.y % 16 == q.y % 16 }

  lemma CellOf(x: U10, k: int)
    requires -32 <= k <= 32
    ensures Add(x, k) % 16 == x % 16 <==> k % 16 == 0
  {
    assert Add(x, k) == x + k || Add(x, k) == x + k - 1024 || Add(x, k) == x + k + 1024;
  }

  lemma CellOfShift(p: Pos, d: Direction, k: int)
    requires 0 <= k <= 32
    ensures SameCell(p, Shift(p, d, k)) <==> k % 16 == 0
  {
    match d
    case Down => CellOf(p.y, k);
    case Up => CellOf(p.y, -k);
    case Left => CellOf(p.x, -k);
    case Right => CellOf(p.x, k);
  }

  /** Either one pulse at rest (looking around, or nothing), or a whole step, walking
      or running, blocked or not, that no tile interrupts. */
  ghost predicate Leg(b: Board, ps: seq<Press>)
  {
    AtRest(b) &&
    if |ps| == 1 then
      Wish(ps[0].riseKey) != Some(b.game.direction) && NoEscape(ps) && !AtTile(b.tile)
    else
      Uninterrupted(b, ps) && Accepts(b, ps[0])
  }

  /** What makes a leg leave the grid: at rest, a key that only the falling edge
      sees; in a step, a number of pixels, as far as the first obstacle, that does
      not come to whole cells. */
  predicate Slips(b: Board, ps: seq<Press>)
    requires ps != []
  {
    var d := b.game.direction;
    if |ps| == 1 then
      !AtBounds(d, b.pos.x, b.pos.y) && Wish(ps[0].fallKey) == Some(d) && (b.pos.everyOther || ps[0].running)
    else Gone(b.pos, d, StepPixels(b, ps)) % 16 != 0
  }

  lemma {:induction false} WalkersDoNotRun(phase: bool, ps: seq<Press>)
    requires forall j | 0 <= j < |ps| :: !ps[j].running
    ensures OffPhaseRuns(phase, ps) == 0
  {
    if ps != [] {
      WalkersDoNotRun(phase, ps[..|ps| - 1]);
    }
  }

  lemma OnePulse(b: Board, p: Press)
    ensures Pulses(b, [p]) == Pulse(b, p)
  {
    assert [p][..0] == [];
    assert Pulses(b, [p][..0]) == b;
  }

  /** The way the player faces after a leg that begins so. */
  function Facing(b: Board, p: Press): Direction
  {
    if Wish(p.riseKey).Some? then Wish(p.riseKey).value else b.game.direction
  }

  lemma RestVerdict(b: Board, p: Press)
    requires AtRest(b) && Wish(p.riseKey) != Some(b.game.direction) && p.riseKey != KEY_ESC && !AtTile(b.tile)
    ensures AtRest(Pulse(b, p)) && Pulse(b, p).game.direction == Facing(b, p)
    ensures SameCell(b.pos, Pulse(b, p).pos) <==> !Slips(b, [p])
  {
    FallMoves(b, p);
    CellOfShift(b.pos, b.game.direction, 1);
  }

  lemma StepVerdict(b: Board, ps: seq<Press>)
    requires Leg(b, ps) && |ps| == 32
    ensures AtRest(Pulses(b, ps)) && Pulses(b, ps).game.direction == Facing(b, ps[0])
    ensures SameCell(b.pos, Pulses(b, ps).pos) <==> !Slips(b, ps)
  {
    StepLasts(b, ps, 32);
    assert ps[..32] == ps;
    StepDisplacement(b, ps);
    OffPhaseIsHalf(b.pos.everyOther, ps);
    GoneIs(b.pos, b.game.direction, StepPixels(b, ps));
    CellOfShift(b.pos, b.game.direction, Gone(b.pos, b.game.direction, StepPixels(b, ps)));
  }

  /** One leg leaves the player at rest, facing the way its first key asks for, in the
      cell it began in if and only if it does not slip, which shows before it begins. */
  lemma LegVerdict(b: Board, ps: seq<Press>)
    requires Leg(b, ps)
    ensures AtRest(Pulses(b, ps)) && Pulses(b, ps).game.direction == Facing(b, ps[0])
    ensures SameCell(b.pos, Pulses(b, ps).pos) <==> !Slips(b, ps)
  {
    if |ps| == 1 {
      assert ps == [ps[0]];
      OnePulse(b, ps[0]);
      RestVerdict(b, ps[0]);
    } else {
      StepVerdict(b, ps);
    }
  }

  ghost predicate Stroll(b: Board, legs: seq<seq<Press>>)
    decreases legs
  {
    legs != [] ==> Leg(b, legs[0]) && Stroll(Pulses(b, legs[0]), legs[1..])
  }

  /** Every leg ends in the cell of p. */
  ghost predicate StaysInCell(b: Board, legs: seq<seq<Press>>, p: Pos)
    decreases legs
  {
    SameCell(p, b.pos) && (legs != [] ==> StaysInCell(Pulses(b, legs[0]), legs[1..], p))
  }

  ghost predicate NeverSlips(b: Board, legs: seq<seq<Press>>)
    requires Stroll(b, legs)
    decreases legs
  {
    legs != [] ==> !Slips(b, legs[0]) && NeverSlips(Pulses(b, legs[0]), legs[1..])
  }

  /** However long a player walks, he stays on the 16-pixel grid he started on if
      and only if no leg slips. */
  lemma {:induction false} StrollKeepsGrid(b: Board, legs: seq<seq<Press>>, p: Pos)
    requires Stroll(b, legs) && SameCell(p, b.pos)
    ensures StaysInCell(b, legs, p) <==> NeverSlips(b, legs)
    decreases legs
  {
    if legs != [] {
      LegVerdict(b, legs[0]);
      if SameCell(p, Pulses(b, legs[0]).pos) {
        StrollKeepsGrid(Pulses(b, legs[0]), legs[1..], p);
      } else {
        assert !StaysInCell(Pulses(b, legs[0]), legs[1..], p);
      }
    }
  }

  ghost predicate WallAhead(p: Pos, d: Direction)
  {
    exists k | 0 < k < 16 :: BlockedAt(p, d, k)
  }

  lemma GoneStops(p: Pos, d: Direction, m: nat)
    ensures BlockedAt(p, d, 0) ==> Gone(p, d, m) == 0
    ensures !BlockedAt(p, d, 0) && m > 0 ==> Gone(p, d, m) > 0
    ensures forall k | 0 < k && BlockedAt(p, d, k) :: Gone(p, d, m) <= k
  {
    GoneIs(p, d, m);
  }

  lemma GoneOfWalk(p: Pos, d: Direction, m: nat)
    requires m in {15, 16}
    ensures Gone(p, d, m) % 16 != 0 <==> !BlockedAt(p, d, 0) && (WallAhead(p, d) || m == 15)
  {
    var g := Gone(p, d, m);
    GoneStops(p, d, m);
    if WallAhead(p, d) {
      var k :| 0 < k < 16 && BlockedAt(p, d, k);
      assert g <= 15;
    } else {
      GoneIs(p, d, m);
      assert 0 < g < m ==> BlockedAt(p, d, g);
    }
  }

  /** For a walker, who goes 16 pixels or 15: a walking step slips exactly if it can
      begin and then meets an obstacle on its way or lacks its first pixel. */
  lemma WalkerSlips(b: Board, ps: seq<Press>)
    requires |ps| == 32 && forall j | 0 <= j < 32 :: !ps[j].running
    ensures Slips(b, ps)
       <==> !BlockedAt(b.pos, b.game.direction, 0)
            && (WallAhead(b.pos, b.game.direction) || MissesFirst(b.pos.everyOther, b.game.direction, ps[0]))
  {
    WalkersDoNotRun(b.pos.everyOther, ps);
    GoneOfWalk(b.pos, b.game.direction, StepPixels(b, ps));
  }

  // ------------------------------------------------------ the game's own grid

  /** The grid of the start position and of every tile. */
  predicate OnGrid(p: Pos) { p.x % 16 == 0 && p.y % 16 == 11 }

  lemma TilesAreOnGrid(t: Point)
    requires OnTile(t)
    ensures OnGrid(Pos(Add(t.x, -15), Add(t.y, -20), false)) && OnGrid(Pos(START_X, START_Y, false))
  {
    TilesAreInRooms(t);
  }

  lemma AddOnGrid(x: U10, k: int)
    requires -16 < k < 16
    ensures Add(x, k) % 16 == (x % 16 + k) % 16
  {
    assert Add(x, k) == x + k || Add(x, k) == x + k - 1024 || Add(x, k) == x + k + 1024;
  }

  lemma OffGridWall(d: Direction, x: U10, y: U10)
    requires if d in {Left, Right} then x % 16 != 0 else y % 16 != 11
    ensures AtBounds(d, x, y) <==> d == Up && y in {26, 154, 282}
  {
  }

  lemma GridWall(p: Pos, d: Direction, k: int)
    requires OnGrid(p) && 0 < k < 16
    ensures BlockedAt(p, d, k) <==> d == Up && k == 1 && p.y in {27, 155, 283}
  {
    var q := Shift(p, d, k);
    match d {
      case Down => AddOnGrid(p.y, k);
      case Up =>
        AddOnGrid(p.y, -k);
        assert Add(p.y, -k) == p.y - k || Add(p.y, -k) == p.y - k + 1024;
      case Left => AddOnGrid(p.x, -k);
      case Right => AddOnGrid(p.x, k);
    }
    OffGridWall(d, q.x, q.y);
  }

  lemma GridWalls(p: Pos, d: Direction)
    requires OnGrid(p)
    ensures WallAhead(p, d) <==> d == Up && p.y in {27, 155, 283}
  {
    forall k | 0 < k < 16
      ensures BlockedAt(p, d, k) <==> d == Up && k == 1 && p.y in {27, 155, 283}
    {
      GridWall(p, d, k);
    }
    if d == Up && p.y in {27, 155, 283} {
      assert BlockedAt(p, d, 1);
    }
  }

  lemma ShiftByNothing(p: Pos, d: Direction)
    ensures Shift(p, d, 0) == p
  {
  }

  /** From a cell of the game's grid, a whole walking step whose key both edges see,
      blocked or not, ends on the grid if and only if it does not go up from below a
      north wall: those stand one pixel off the grid. */
  lemma OnlyNorthWallsLeaveTheGrid(b: Board, ps: seq<Press>)
    requires Leg(b, ps) && |ps| == 32 && OnGrid(b.pos)
    requires Wish(ps[0].fallKey) == Some(b.game.direction) && forall j | 0 <= j < 32 :: !ps[j].running
    ensures OnGrid(Pulses(b, ps).pos) <==> !(b.game.direction == Up && b.pos.y in {27, 155, 283})
  {
    LegVerdict(b, ps);
    WalkerSlips(b, ps);
    GridWalls(b.pos, b.game.direction);
    ShiftByNothing(b.pos, b.game.direction);
  }

  /** It does happen: below the wall of the start room, W held for a whole step. */
  const BELOW_WALL := Board(Game(DrawMainGame, 0, Up, 0, 31), Tile(Hold, 8, Point(0, 0)), Pos(192, 283, true))
  const HOLD_W := seq(32, i => Press(KEY_W, KEY_W, false))

  lemma {:induction false} WalkingUp(k: nat)
    requires k <= 32
    ensures var b := Pulses(BELOW_WALL, HOLD_W[..k]);
      && b.game.state == DrawMainGame && b.game.direction == Up
      && b.pos.x == 192 && b.pos.y in {282, 283} && b.tile.state in {NotTile, Hold}
      && (k > 0 ==> b.pos.y == 282)
  {
    if k > 0 {
      WalkingUp(k - 1);
      PulsesNext(BELOW_WALL, HOLD_W, k);
      NoTileThere(282);
      NoTileThere(283);
    }
  }

  lemma NoTileThere(y: U10)
    requires y in {282, 283}
    ensures !OnTile(Point(207, y + 20))
  {
  }

  lemma NorthWallIsMet()
    ensures Leg(BELOW_WALL, HOLD_W) && OnGrid(BELOW_WALL.pos)
    ensures Pulses(BELOW_WALL, HOLD_W).pos.y == 282 && !OnGrid(Pulses(BELOW_WALL, HOLD_W).pos)
  {
    forall j | 0 <= j < 32
      ensures !AtTile(Pulses(BELOW_WALL, HOLD_W[..j]).tile)
    {
      WalkingUp(j);
    }
    WalkingUp(32);
    assert HOLD_W[..32] == HOLD_W;
  }
}
