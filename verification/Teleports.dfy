// How long a teleport takes, frame by frame, and when the next one may start.

module Teleports {
  import opened Gym
  import opened Player

  /** The board after k frames. */
  function After(b: Board, ins: seq<Input>, k: nat): Board
    requires k <= |ins|
  {
    Run(b, ins[..k])
  }

  lemma AfterNext(b: Board, ins: seq<Input>, k: nat)
    requires k < |ins|
    ensures After(b, ins, k + 1) == Frame(After(b, ins, k), ins[k])
  {
    assert ins[..k + 1][..k] == ins[..k];
  }

  /** The game is being played in every one of the first k frames. */
  ghost predicate Playing(b: Board, ins: seq<Input>, k: nat)
    requires k <= |ins|
  {
    forall j | 0 <= j <= k :: After(b, ins, j).game.state == DrawMainGame
  }

  /** The frames a player spins before the jump, from the counter's entry value. */
  function SpinFrames(entry: U6): nat { if entry <= SPIN_END then SPIN_END - entry + 1 else 72 - entry }

  /** Where the teleport machine is k frames after a player has reached a tile. */
  function Phase(entry: U6, k: nat): (TileState, U6)
  {
    var spin := SpinFrames(entry);
    if k == 0 then (NotTile, entry)
    else if k <= spin then (Prespin, (entry + k - 1) % 64)
    else if k == spin + 1 then (Teleport, 0)
    else if k <= spin + 9 then (Postspin, k - (spin + 2))
    else if k == spin + 10 then (Latch, 8)
    else (Hold, 8)
  }

  /** A player has just reached tile `from`. */
  ghost predicate Reaches(b: Board, from: Point)
  {
    && b.tile.state == NotTile && Corner(b.pos) == from && OnTile(from)
  }

  lemma CornerOfPlace(p: Pos, t: Point)
    requires t.x >= 15 && t.y >= 20
    requires p.x == Add(t.x, -15) && p.y == Add(t.y, -20)
    ensures Corner(p) == t
  {
  }

  /** The counter reaches its end in the last spinning frame and not before. */
  lemma SpinCount(entry: U6, k: nat)
    requires 1 <= k <= SpinFrames(entry)
    ensures (entry + k - 1) % 64 == SPIN_END <==> k == SpinFrames(entry)
    ensures ((entry + k - 1) % 64 + 1) % 64 == (entry + k) % 64
  {
  }

  /** Spinning before the jump, and the frame the jump is armed. */
  lemma SpinPhase(t: Tile, entry: U6, k: nat, from: Point)
    requires OnTile(from) && (t.state, t.spin) == Phase(entry, k) && k <= SpinFrames(entry)
    ensures var t' := NextTile(t, from); (t'.state, t'.spin) == Phase(entry, k + 1) && t'.at == from
  {
    if k > 0 {
      SpinCount(entry, k);
    }
  }

  /** After the jump, until the player is free. */
  lemma LandedPhase(t: Tile, entry: U6, k: nat, here: Point)
    requires (t.state, t.spin) == Phase(entry, k) && SpinFrames(entry) + 2 <= k < SpinFrames(entry) + 11
    ensures var t' := NextTile(t, here); (t'.state, t'.spin) == Phase(entry, k + 1) && t'.at == t.at
  {
  }

  /** The teleport machine follows its phases as long as the player is where they
      put him. */
  lemma PhaseStep(t: Tile, entry: U6, k: nat, from: Point)
    requires OnTile(from) && (t.state, t.spin) == Phase(entry, k) && k < SpinFrames(entry) + 11
    ensures var here := if k <= SpinFrames(entry) + 1 then from else Partner(from);
            var t' := NextTile(t, here);
            && (t'.state, t'.spin) == Phase(entry, k + 1)
            && t'.at == if k <= SpinFrames(entry) then from
                        else if k == SpinFrames(entry) + 1 then Partner(from) else t.at
  {
    if k <= SpinFrames(entry) {
      SpinPhase(t, entry, k, from);
    } else if k > SpinFrames(entry) + 1 {
      LandedPhase(t, entry, k, Partner(from));
    }
  }

  /** While the game is played, a player at a tile is moved to where the teleport
      machine says. */
  lemma PlacedFrame(b: Board, i: Input)
    requires Frame(b, i).game.state == DrawMainGame
    ensures !i.reset
    ensures Frame(b, i).tile == NextTile(b.tile, Corner(b.pos))
    ensures AtTile(Frame(b, i).tile) && Frame(b, i).tile.at.x >= 15 && Frame(b, i).tile.at.y >= 20 ==>
              Corner(Frame(b, i).pos) == Frame(b, i).tile.at
  {
    var b' := Frame(b, i);
    if AtTile(b'.tile) && b'.tile.at.x >= 15 && b'.tile.at.y >= 20 {
      CornerOfPlace(b'.pos, b'.tile.at);
    }
  }

  /** The board k frames after the player has reached tile `from`: pinned on the
      tile while spinning, then on its partner. */
  ghost predicate OnCourse(b: Board, entry: U6, k: nat, from: Point)
  {
    && (b.tile.state, b.tile.spin) == Phase(entry, k)
    && Corner(b.pos) == (if k <= SpinFrames(entry) + 1 then from else Partner(from))
    && (k > 0 ==> b.tile.at == Corner(b.pos))
  }

  lemma CourseStep(b: Board, i: Input, entry: U6, k: nat, from: Point)
    requires OnTile(from) && OnCourse(b, entry, k, from) && k < SpinFrames(entry) + 10
    requires Frame(b, i).game.state == DrawMainGame
    ensures OnCourse(Frame(b, i), entry, k + 1, from)
  {
    PhaseStep(b.tile, entry, k, from);
    PlacedFrame(b, i);
    PartnerIsInvolution(from);
    TilesAreInRooms(from);
    TilesAreInRooms(Partner(from));
  }

  /** The whole course, every frame accounted for. */
  lemma {:induction false} TeleportCourse(b: Board, ins: seq<Input>, from: Point, k: nat)
    requires Reaches(b, from)
    requires k <= |ins| && k <= SpinFrames(b.tile.spin) + 10
    requires Playing(b, ins, k)
    ensures OnCourse(After(b, ins, k), b.tile.spin, k, from)
  {
    if k > 0 {
      TeleportCourse(b, ins, from, k - 1);
      AfterNext(b, ins, k - 1);
      CourseStep(After(b, ins, k - 1), ins[k - 1], b.tile.spin, k - 1, from);
    }
  }

  lemma CoursePhase(b: Board, ins: seq<Input>, from: Point, k: nat)
    requires Reaches(b, from)
    requires k <= |ins| && k <= SpinFrames(b.tile.spin) + 10 && Playing(b, ins, k)
    ensures (After(b, ins, k).tile.state, After(b, ins, k).tile.spin) == Phase(b.tile.spin, k)
  {
    TeleportCourse(b, ins, from, k);
  }

  lemma LastFrame(b: Board, i: Input, entry: U6)
    requires (b.tile.state, b.tile.spin) == Phase(entry, SpinFrames(entry) + 10)
    requires Frame(b, i).game.state == DrawMainGame
    ensures Frame(b, i).tile.state == Hold
  {
    PlacedFrame(b, i);
    LandedPhase(b.tile, entry, SpinFrames(entry) + 10, Corner(b.pos));
  }

  lemma TeleportGoesOn(b: Board, ins: seq<Input>, from: Point, k: nat)
    requires Reaches(b, from)
    requires 1 <= k <= |ins| && k <= SpinFrames(b.tile.spin) + 10 && Playing(b, ins, k)
    ensures After(b, ins, k).tile.state != Hold && After(b, ins, k).tile.state != NotTile
  {
    CoursePhase(b, ins, from, k);
  }

  lemma TeleportEnds(b: Board, ins: seq<Input>, from: Point, k: nat)
    requires Reaches(b, from)
    requires k <= |ins| && k == SpinFrames(b.tile.spin) + 11 && Playing(b, ins, k)
    ensures After(b, ins, k).tile.state == Hold
  {
    CoursePhase(b, ins, from, k - 1);
    AfterNext(b, ins, k - 1);
    LastFrame(After(b, ins, k - 1), ins[k - 1], b.tile.spin);
  }

  /** With the counter at 0 a teleport takes 18 frames from its first spinning
      frame, with the counter at 8 it takes 74; only then is the player free. */
  lemma TeleportLength(b: Board, ins: seq<Input>, from: Point, k: nat)
    requires Reaches(b, from) && b.tile.spin in {0, 8}
    requires 1 <= k <= |ins| && k - 1 <= (if b.tile.spin == 0 then 18 else 74)
    requires Playing(b, ins, k)
    ensures After(b, ins, k).tile.state == Hold <==> k - 1 == if b.tile.spin == 0 then 18 else 74
    ensures After(b, ins, k).tile.state != NotTile
  {
    if k == SpinFrames(b.tile.spin) + 11 {
      TeleportEnds(b, ins, from, k);
    } else {
      TeleportGoesOn(b, ins, from, k);
    }
  }

  /** A free player stays free while he stays on the tiles: no second teleport
      starts before he has left them. */
  lemma {:induction false} NoSecondTeleport(b: Board, ins: seq<Input>, k: nat)
    requires b.tile.state == Hold && k <= |ins|
    requires forall j | 0 <= j < k :: OnTile(Corner(After(b, ins, j).pos)) && !ins[j].reset
    ensures After(b, ins, k).tile.state == Hold
  {
    if k > 0 {
      NoSecondTeleport(b, ins, k - 1);
      AfterNext(b, ins, k - 1);
    }
  }

  /** From the jump on, until the player has stood off the tiles. */
  predicate Bound(t: TileState) { t in {Postspin, Latch, Hold} }

  lemma BoundFrame(b: Board, i: Input)
    requires !i.reset && (Bound(b.tile.state) || b.tile.state == Teleport)
    ensures Bound(Frame(b, i).tile.state)
         || (Frame(b, i).tile.state == NotTile && !OnTile(Corner(b.pos)))
  {
  }

  /** Between a jump and the start of the next teleport, in any run without a
      reset, there is a frame in which the player stands off the tiles. */
  lemma {:induction false} JumpsAreApart(b: Board, ins: seq<Input>, k: nat) returns (m: nat)
    requires b.tile.state == Teleport && 0 < k <= |ins| && !Bound(After(b, ins, k).tile.state)
    requires forall j | 0 <= j < k :: !ins[j].reset
    ensures m < k && !OnTile(Corner(After(b, ins, m).pos)) && Bound(After(b, ins, m).tile.state)
  {
    m := k - 1;
    AfterNext(b, ins, k - 1);
    if k > 1 && Bound(After(b, ins, k - 1).tile.state) {
      BoundFrame(After(b, ins, k - 1), ins[k - 1]);
    } else if k > 1 {
      m := JumpsAreApart(b, ins, k - 1);
    }
  }

  // ------------------------------------------------ which counter it starts at

  /** The first frames after a reset: the player starts on a tile, so he is
      teleported at once, with counter 0, while the start screen still shows. */
  ghost predicate Young(b: Board, n: nat)
  {
    && n <= 18 && (b.tile.state, b.tile.spin) == Phase(0, n)
    && Corner(b.pos) == PAIRS[0].0
    && ((b.game.state == StartScreen && b.game.fade == 0) || (b.game.state == Fade && b.game.fade < n))
  }

  /** From then on every idle teleport machine has its counter at 8. */
  predicate Old(t: Tile)
  {
    && (t.state in {NotTile, Latch, Hold} ==> t.spin == 8)
    && (t.state == Teleport ==> t.spin == 0)
    && (t.state == Postspin ==> t.spin <= SPIN_END)
  }

  lemma YoungFrame(b: Board, n: nat, i: Input)
    requires Young(b, n) && !i.reset
    ensures if n < 18 then Young(Frame(b, i), n + 1) else Old(Frame(b, i).tile)
  {
  }

  lemma OldFrame(t: Tile, here: Point)
    requires Old(t)
    ensures Old(NextTile(t, here))
  {
  }

  /** A reset, and a power-up that is not left at once, start young. */
  lemma YoungStart(i: Input)
    ensures Young(AFTER_RESET, 0)
    ensures Young(Frame(POWER_UP, i), 0) <==> i.reset || i.riseKey != KEY_ENTER
  {
    assert PAIRS[0].0 == Point(START_X + 15, START_Y + 20);
    assert Frame(POWER_UP, i).pos == if i.reset || i.riseKey != KEY_ENTER
                                     then Pos(START_X, START_Y, false) else Pos(0, 0, false);
  }

  lemma {:induction false} YoungOrOld(b0: Board, ins: seq<Input>) returns (n: nat)
    requires Young(b0, 0)
    ensures Young(Run(b0, ins), n) || Old(Run(b0, ins).tile)
  {
    n := 0;
    if ins != [] {
      var b, i := Run(b0, ins[..|ins| - 1]), ins[|ins| - 1];
      var m := YoungOrOld(b0, ins[..|ins| - 1]);
      if i.reset {
        ResetFrame(b, i);
        YoungStart(i);
      } else if Young(b, m) {
        YoungFrame(b, m, i);
        n := m + 1;
      } else {
        OldFrame(b.tile, Corner(b.pos));
      }
    }
  }

  /** So every teleport that starts while the game is played takes 74 frames; the
      short one happens only behind the start screen. */
  lemma PlayedTeleportsAreLong(b0: Board, ins: seq<Input>)
    requires Young(b0, 0)
    requires Run(b0, ins).game.state == DrawMainGame && Run(b0, ins).tile.state == NotTile
    ensures Run(b0, ins).tile.spin == 8
  {
    var n := YoungOrOld(b0, ins);
  }
}
