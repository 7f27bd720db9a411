// The statues as a region of the floor, and who can get into it: from the game's
// grid nobody, at any pulse; off it, the bounds checker has holes.

module Statues {
  import opened Gym
  import opened Player
  import opened Stepping
  import opened Words

  /** The character's box overlaps one of the two statues of the start room. */
  predicate Inside(p: Pos)
  {
    (176 < p.x < 208 || 240 < p.x < 272) && 283 < p.y < 331
  }

  /** Less than n pixels ahead is a pixel of a statue's side that is not tested: of
      its left and right sides the lower 15 pixels, of its other two all but one. */
  predicate HoleAhead(p: Pos, d: Direction, n: int)
  {
    match d
    case Down => OffCentre(p.x) && 283 - n < p.y <= 283
    case Up => OffCentre(p.x) && 331 <= p.y < 331 + n
    case Left => (208 <= p.x < 208 + n || 272 <= p.x < 272 + n) && 316 <= p.y <= 330
    case Right => (176 - n < p.x <= 176 || 240 - n < p.x <= 240) && 316 <= p.y <= 330
  }

  predicate OffCentre(x: U10)
  {
    (176 < x < 208 || 240 < x < 272) && x != 192 && x != 256
  }

  /** One pixel goes from outside to inside exactly through a hole. */
  lemma OnePixelIn(p: Pos, d: Direction)
    requires !Inside(p)
    ensures !AtBounds(d, p.x, p.y) && Inside(Shift(p, d, 1)) <==> HoleAhead(p, d, 1)
  {
  }

  /** Outside and in a room, on the grid or off it, an obstacle is exactly where the
      next pixel would leave the room, or enter a statue but through a hole. */
  lemma ObstacleIs(p: Pos, d: Direction)
    requires InRoom(p) && !Inside(p)
    ensures AtBounds(d, p.x, p.y)
       <==> !InRoom(Shift(p, d, 1)) || (Inside(Shift(p, d, 1)) && !HoleAhead(p, d, 1))
  {
  }

  lemma FewPixels(x: U10, k: int)
    requires -32 <= k <= 32
    ensures Add(x, k) == if x + k < 0 then x + k + 1024 else if x + k >= 1024 then x + k - 1024 else x + k
  {
  }

  lemma WayIsClear(p: Pos, d: Direction, k: nat, j: nat)
    requires j <= k < 32 && HoleAhead(p, d, k + 1) && !HoleAhead(p, d, k)
    ensures !BlockedAt(p, d, j)
  {
    match d
    case Down => FewPixels(p.y, j);
    case Up => FewPixels(p.y, 0 - j);
    case Left => FewPixels(p.x, 0 - j);
    case Right => FewPixels(p.x, j);
  }

  lemma HoleLeadsIn(p: Pos, d: Direction, k: nat)
    requires k < 32 && HoleAhead(p, d, k + 1) && !HoleAhead(p, d, k)
    ensures Inside(Shift(p, d, k + 1))
  {
  }

  /** The way to a hole is free. */
  lemma HoleIsReached(p: Pos, d: Direction, k: nat)
    requires k < 32 && HoleAhead(p, d, k + 1) && !HoleAhead(p, d, k)
    ensures Inside(Advanced(p, d, k + 1))
  {
    forall j | 0 <= j < k + 1
      ensures !BlockedAt(p, d, j)
    {
      WayIsClear(p, d, k, j);
    }
    AdvancedIs(p, d, k + 1, k + 1);
    HoleLeadsIn(p, d, k);
  }

  /** A hole just ahead after some free pixels was ahead before them. */
  lemma HoleWasAhead(p: Pos, d: Direction, g: nat)
    requires g < 32
    ensures HoleAhead(Shift(p, d, g), d, 1) ==> HoleAhead(p, d, g + 1)
  {
    match d
    case Down => FewPixels(p.y, g);
    case Up => FewPixels(p.y, 0 - g);
    case Left => FewPixels(p.x, 0 - g);
    case Right => FewPixels(p.x, g);
  }

  lemma HoleIsFar(p: Pos, d: Direction, n: nat, k: nat)
    requires k <= n
    ensures HoleAhead(p, d, k) ==> HoleAhead(p, d, n)
  {
  }

  /** Some pixel of the way is inside. */
  ghost predicate GetsInside(p: Pos, d: Direction, n: nat)
  {
    exists m | 0 <= m <= n :: Inside(Advanced(p, d, m))
  }

  lemma {:induction false} NoHoleNoEntry(p: Pos, d: Direction, n: nat)
    requires !Inside(p) && n <= 32 && !HoleAhead(p, d, n)
    ensures !Inside(Advanced(p, d, n))
  {
    if n > 0 {
      HoleIsFar(p, d, n, n - 1);
      NoHoleNoEntry(p, d, n - 1);
      var q := Advanced(p, d, n - 1);
      OnePixelIn(q, d);
      GoneIs(p, d, n - 1);
      HoleWasAhead(p, d, Gone(p, d, n - 1));
      HoleIsFar(p, d, n, Gone(p, d, n - 1) + 1);
    }
  }

  lemma {:induction false} FirstHole(p: Pos, d: Direction, n: nat) returns (k: nat)
    requires HoleAhead(p, d, n)
    ensures k < n && HoleAhead(p, d, k + 1) && !HoleAhead(p, d, k)
  {
    if HoleAhead(p, d, n - 1) {
      k := FirstHole(p, d, n - 1);
    } else {
      k := n - 1;
    }
  }

  /** The way of up to 32 pixels from outside gets inside exactly if it starts close
      enough in front of a hole. */
  lemma EntryVerdict(p: Pos, d: Direction, n: nat)
    requires !Inside(p) && n <= 32
    ensures GetsInside(p, d, n) <==> HoleAhead(p, d, n)
  {
    if HoleAhead(p, d, n) {
      var k := FirstHole(p, d, n);
      HoleIsReached(p, d, k);
    } else {
      forall m | 0 <= m <= n
        ensures !Inside(Advanced(p, d, m))
      {
        HoleIsFar(p, d, n, m);
        NoHoleNoEntry(p, d, m);
      }
    }
  }

  // ----------------------------------------------------------- a whole step

  lemma {:induction false} AttemptsGrow(phase: bool, d: Direction, ps: seq<Press>, k: nat)
    requires k <= |ps|
    ensures Attempts(phase, d, ps[..k]) <= Attempts(phase, d, ps)
    decreases |ps| - k
  {
    if k == |ps| {
      assert ps[..k] == ps;
    } else {
      AttemptsGrow(phase, d, ps, k + 1);
      assert ps[..k + 1][..k] == ps[..k];
    }
  }

  /** Every number of pixels up to the last is reached at some pulse. */
  lemma {:induction false} AttemptsReach(phase: bool, d: Direction, ps: seq<Press>, m: nat) returns (k: nat)
    requires m <= Attempts(phase, d, ps)
    ensures k <= |ps| && Attempts(phase, d, ps[..k]) == m
  {
    var n := |ps| - 1;
    if m == Attempts(phase, d, ps) {
      k := |ps|;
      assert ps[..k] == ps;
    } else {
      k := AttemptsReach(phase, d, ps[..n], m);
      assert ps[..n][..k] == ps[..k];
    }
  }

  /** Some pulse of the step finds the player inside a statue. */
  ghost predicate StepsInside(b: Board, ps: seq<Press>)
  {
    exists k | 0 <= k <= |ps| :: Inside(Pulses(b, ps[..k]).pos)
  }

  lemma StepPixelsAre(b: Board, ps: seq<Press>)
    requires |ps| == 32
    ensures Attempts(b.pos.everyOther, b.game.direction, ps) == StepPixels(b, ps) <= 32
  {
    AttemptsAre(b.pos.everyOther, b.game.direction, ps);
    OffPhaseIsHalf(b.pos.everyOther, ps);
  }

  lemma PulseIsAdvance(b: Board, ps: seq<Press>, k: nat)
    requires Uninterrupted(b, ps) && Accepts(b, ps[0]) && k <= 32
    ensures Inside(Pulses(b, ps[..k]).pos)
       <==> Inside(Advanced(b.pos, b.game.direction, Attempts(b.pos.everyOther, b.game.direction, ps[..k])))
  {
    StepCourse(b, ps, k);
  }

  /** A step from outside, walking or running, finds the player inside a statue at
      some pulse if and only if it starts close enough in front of a hole. */
  lemma StepVerdictOnStatues(b: Board, ps: seq<Press>)
    requires Uninterrupted(b, ps) && Accepts(b, ps[0]) && !Inside(b.pos)
    ensures StepsInside(b, ps) <==> HoleAhead(b.pos, b.game.direction, StepPixels(b, ps))
  {
    var phase, d, n := b.pos.everyOther, b.game.direction, StepPixels(b, ps);
    StepPixelsAre(b, ps);
    EntryVerdict(b.pos, d, n);
    if GetsInside(b.pos, d, n) {
      var m :| 0 <= m <= n && Inside(Advanced(b.pos, d, m));
      var k := AttemptsReach(phase, d, ps, m);
      PulseIsAdvance(b, ps, k);
    }
    if StepsInside(b, ps) {
      var k :| 0 <= k <= |ps| && Inside(Pulses(b, ps[..k]).pos);
      PulseIsAdvance(b, ps, k);
      AttemptsGrow(phase, d, ps, k);
    }
  }

  // ------------------------------------------------------ from the grid, never

  lemma NoHoleOnGrid(p: Pos, d: Direction, n: nat)
    requires OnGrid(p)
    ensures !HoleAhead(p, d, n)
  {
  }

  /** No pulse of a leg that begins on the grid finds the player inside a statue,
      whether he looks around, walks or runs and whatever stops him. */
  lemma LegAvoidsStatues(b: Board, ps: seq<Press>)
    requires Leg(b, ps) && OnGrid(b.pos) && !Inside(b.pos)
    ensures !StepsInside(b, ps)
  {
    if |ps| == 32 {
      NoHoleOnGrid(b.pos, b.game.direction, StepPixels(b, ps));
      StepVerdictOnStatues(b, ps);
    } else {
      NoHoleOnGrid(b.pos, b.game.direction, 1);
      OnePixelIn(b.pos, b.game.direction);
      FallMoves(b, ps[0]);
      OnePulse(b, ps[0]);
      assert ps[..0] == [] && ps[..1] == [ps[0]];
    }
  }

  ghost predicate AvoidsStatues(b: Board, legs: seq<seq<Press>>)
    decreases legs
  {
    legs != [] ==> !StepsInside(b, legs[0]) && AvoidsStatues(Pulses(b, legs[0]), legs[1..])
  }

  /** However long a player walks on the grid, no pulse finds him inside a statue. */
  lemma {:induction false} StrollAvoidsStatues(b: Board, legs: seq<seq<Press>>)
    requires Stroll(b, legs) && NeverSlips(b, legs)
    requires OnGrid(b.pos) && !Inside(b.pos)
    ensures AvoidsStatues(b, legs)
    decreases legs
  {
    if legs != [] {
      var ps := legs[0];
      LegAvoidsStatues(b, ps);
      LegVerdict(b, ps);
      assert ps[..|ps|] == ps;
      StrollAvoidsStatues(Pulses(b, ps), legs[1..]);
    }
  }

  /** The start and the tiles are outside. */
  lemma TilesAreOutside(t: Point)
    requires OnTile(t)
    ensures !Inside(Pos(Add(t.x, -15), Add(t.y, -20), false)) && !Inside(Pos(START_X, START_Y, false))
  {
    TilesAreInRooms(t);
  }

  // ------------------------------------------------- what does stop the player

  lemma CellDown(p: Pos)
    requires OnGrid(p) && InRoom(p) && !Inside(p)
    ensures var q := Shift(p, Down, 16); AtBounds(Down, p.x, p.y) <==> !InRoom(q) || Inside(q)
  {
    FewPixels(p.y, 16);
  }

  lemma CellUp(p: Pos)
    requires OnGrid(p) && InRoom(p) && !Inside(p)
    ensures var q := Shift(p, Up, 16);
      (AtBounds(Up, p.x, p.y) <==> Inside(q)) && (p.y in {27, 155, 283} <==> !InRoom(q))
  {
    FewPixels(p.y, -16);
  }

  lemma CellLeft(p: Pos)
    requires OnGrid(p) && InRoom(p) && !Inside(p)
    ensures var q := Shift(p, Left, 16); AtBounds(Left, p.x, p.y) <==> !InRoom(q) || Inside(q)
  {
    FewPixels(p.x, -16);
  }

  lemma CellRight(p: Pos)
    requires OnGrid(p) && InRoom(p) && !Inside(p)
    ensures var q := Shift(p, Right, 16); AtBounds(Right, p.x, p.y) <==> !InRoom(q) || Inside(q)
  {
    FewPixels(p.x, 16);
  }

  lemma FarCell(p: Pos, d: Direction)
    requires OnGrid(p) && InRoom(p) && !Inside(p)
    ensures var q := Shift(p, d, 16);
      if d == Up then (AtBounds(d, p.x, p.y) <==> Inside(q)) && (p.y in {27, 155, 283} <==> !InRoom(q))
      else AtBounds(d, p.x, p.y) <==> !InRoom(q) || Inside(q)
  {
    match d
    case Down => CellDown(p);
    case Up => CellUp(p);
    case Left => CellLeft(p);
    case Right => CellRight(p);
  }

  /** From a cell of the grid 16 pixels lead to the next cell if it is in a room and
      not in a statue, and otherwise nowhere, but for the pixel below a north wall. */
  lemma CellAhead(p: Pos, d: Direction)
    requires OnGrid(p) && InRoom(p) && !Inside(p)
    ensures var q := Shift(p, d, 16);
      Gone(p, d, 16) == if InRoom(q) && !Inside(q) then 16 else if d == Up && !InRoom(q) then 1 else 0
  {
    FarCell(p, d);
    GoneIs(p, d, 16);
    GridWalls(p, d);
    ShiftByNothing(p, d);
    GoneOfWalk(p, d, 16);
    GridWall(p, d, 1);
    assert BlockedAt(p, d, 0) <==> AtBounds(d, p.x, p.y);
    assert BlockedAt(p, d, 0) ==> Gone(p, d, 16) == 0;
    assert BlockedAt(p, d, 1) ==> Gone(p, d, 16) <= 1;
  }

  // ---------------------------------------------------------- through a hole

  const RUN_A := seq(32, i => Press(KEY_A, KEY_A, true))

  lemma NoTileWest(x: U10)
    ensures !OnTile(Point(x, 350))
  {
  }

  predicate RunsWest(c: Board, x: int)
  {
    && c.game.state == DrawMainGame && c.game.direction == Left && !AtTile(c.tile)
    && c.pos.x == x && c.pos.y == 330
  }

  lemma WestPulse(c: Board, x: int)
    requires RunsWest(c, x) && 256 < x <= 288
    ensures RunsWest(Pulse(c, Press(KEY_A, KEY_A, true)), x - 1)
  {
    FallMoves(c, Press(KEY_A, KEY_A, true));
    NoTileWest(x + 14);
  }

  lemma {:induction false} RunningWest(b: Board, k: nat)
    requires RunsWest(b, 288) && k <= 32
    ensures RunsWest(Pulses(b, RUN_A[..k]), 288 - k)
  {
    if k > 0 {
      RunningWest(b, k - 1);
      PulsesNext(b, RUN_A, k);
      WestPulse(Pulses(b, RUN_A[..k - 1]), 289 - k);
    }
  }

  /** It does happen, where the walk after power-up leaves the player: facing west he
      runs into the statue. */
  lemma StatueIsEntered(b: Board)
    requires AtRest(b) && b.game.direction == Left && !AtTile(b.tile)
    requires b.pos.x == 288 && b.pos.y == 330
    ensures Leg(b, RUN_A) && !Inside(b.pos) && Inside(Pulses(b, RUN_A).pos)
  {
    forall j | 0 <= j < 32
      ensures !AtTile(Pulses(b, RUN_A[..j]).tile)
    {
      RunningWest(b, j);
    }
    RunningWest(b, 32);
    assert RUN_A[..32] == RUN_A;
  }
}
