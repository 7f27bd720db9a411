// The VGA counters, and the frame buffer that is filled beside the visible
// picture while the picture is read out: one step per pixel clock.

module Raster {
  import opened Division
  import opened Words

  const LINE := 800
  const LINES := 525
  const FRAME := 420_000
  const CELLS := 38_400

  // ------------------------------------------------------ VGA_controller

  datatype Counters = Counters(h: U10, v: U10, hs: bool, vs: bool, blankN: bool)

  const COUNTERS_RESET := Counters(0, 0, false, false, false)

  /** One clock: the syncs are registered together with the counters they follow. */
  function Tick(c: Counters): Counters
  {
    var wrap := (c.h + 1) % 1024 == LINE;
    var h := if wrap then 0 else (c.h + 1) % 1024;
    var v := if !wrap then c.v
             else if (c.v + 1) % 1024 == LINES then 0 else (c.v + 1) % 1024;
    Counters(h, v, !(656 <= h < 752), !(490 <= v < 492), h < 640 && v < 480)
  }

  /** The registers n clocks after reset. */
  function At(n: nat): Counters
  {
    if n == 0 then COUNTERS_RESET else Tick(At(n - 1))
  }

  /** Counting one further, in quotient and remainder. */
  lemma OneMore(n: nat, d: nat)
    requires d > 0
    ensures (n + 1) % d == (if n % d + 1 == d then 0 else n % d + 1)
    ensures (n + 1) / d == (if n % d + 1 == d then n / d + 1 else n / d)
  {
    Parts(n, d);
    if n % d + 1 == d {
      Quotient(n + 1, n / d + 1, 0, d);
    } else {
      Quotient(n + 1, n / d, n % d + 1, d);
    }
  }

  lemma TickIs(c: Counters)
    requires c.h < LINE && c.v < LINES
    ensures Tick(c).h == (if c.h + 1 == LINE then 0 else c.h + 1)
    ensures Tick(c).v == (if c.h + 1 != LINE then c.v else if c.v + 1 == LINES then 0 else c.v + 1)
  {
  }

  lemma {:induction false} CountersAt(n: nat)
    ensures At(n).h == n % 800 && At(n).v == (n / 800) % 525
  {
    if n > 0 {
      var q := (n - 1) / LINE;
      CountersAt(n - 1);
      Parts(n - 1, LINE);
      Parts(q, LINES);
      OneMore(n - 1, LINE);
      OneMore(q, LINES);
      TickIs(At(n - 1));
    }
  }

  /** From the first clock on, the syncs and the blanking agree with the counters
      they are seen with. */
  lemma SyncsAt(n: nat)
    requires n > 0
    ensures At(n).hs <==> !(656 <= At(n).h < 752)
    ensures At(n).vs <==> !(490 <= At(n).v < 492)
    ensures At(n).blankN <==> At(n).h < 640 && At(n).v < 480
  {
  }

  lemma PlaceInFrame(n: nat)
    ensures At(n).v == n % FRAME / LINE && At(n).h == n % FRAME % LINE
  {
    CountersAt(n);
    Nested(n, LINE, LINES);
  }

  predicate Rises(n: nat) { n > 0 && !At(n - 1).vs && At(n).vs }
  predicate Falls(n: nat) { n > 0 && At(n - 1).vs && !At(n).vs }

  /** The clock at which a line is entered. */
  lemma LineStarts(p: nat, line: nat)
    requires 0 < line
    ensures p > 0 ==> (p / LINE >= line > (p - 1) / LINE <==> p == line * LINE)
  {
  }

  /** Each frame has one falling and one rising edge of VGA_VS, and leaving reset
      adds one rising edge. */
  lemma EdgesOfFrame(n: nat)
    ensures Rises(n) <==> n == 1 || n % FRAME == 492 * LINE
    ensures Falls(n) <==> n % FRAME == 490 * LINE
  {
    if n > 1 {
      PlaceInFrame(n);
      PlaceInFrame(n - 1);
      SyncsAt(n);
      SyncsAt(n - 1);
      OneMore(n - 1, FRAME);
      LineStarts(n % FRAME, 490);
      LineStarts(n % FRAME, 492);
    }
  }

  // -------------------------------------------------------- frame buffer

  type Colour = c: int | 0 <= c < 0x100_0000
  type Memory = m: seq<Colour> | |m| == CELLS witness seq(CELLS, i => 0)

  predicate Visible(h: U10, v: U10) { 79 < h < 560 && 79 < v < 400 }

  predicate Filling(h: U10, v: U10, drawing: bool)
  {
    !Visible(h, v) && 560 <= h <= 799 && 79 < v <= 239 && drawing
  }

  /** The cell that is shown, or written, at a counter position. */
  function ReadAddress(h: U10, v: U10): int
    requires Visible(h, v)
  {
    (v - 80) / 2 * 240 + (h - 80) / 2
  }

  function WriteAddress(h: U10, v: U10): int
    requires 560 <= h && 80 <= v
  {
    (v - 80) * 240 + (h - 560)
  }

  predicate Shows(n: nat, a: nat)
  {
    var c := At(n);
    Visible(c.h, c.v) && ReadAddress(c.h, c.v) == a
  }

  /** `drawing` tells for each frame whether the game state is other than 0. */
  predicate Writes(n: nat, a: nat, drawing: nat -> bool)
  {
    var c := At(n);
    Filling(c.h, c.v, drawing(n / FRAME)) && WriteAddress(c.h, c.v) == a
  }

  /** Where in the frame a cell is written, and where it is shown. */
  function WritePlace(a: nat): nat { (80 + a / 240) * LINE + 560 + a % 240 }

  /** In a frame that draws, every cell is written at one clock and no other; in a
      frame that does not, nothing is written. */
  lemma WrittenOnce(n: nat, a: nat, drawing: nat -> bool)
    requires a < CELLS
    ensures Writes(n, a, drawing) <==> drawing(n / FRAME) && n % FRAME == WritePlace(a)
  {
    PlaceInFrame(n);
    var c := At(n);
    var p := n % FRAME;
    Parts(p, LINE);
    Parts(a, 240);
    if Filling(c.h, c.v, drawing(n / FRAME)) {
      if WriteAddress(c.h, c.v) == a {
        Quotient(a, c.v - 80, c.h - 560, 240);
      }
    }
    if p == WritePlace(a) {
      Quotient(p, 80 + a / 240, 560 + a % 240, LINE);
    }
  }

  /** Nothing outside the buffer is ever written or shown. */
  lemma AddressesFit(n: nat)
    ensures Visible(At(n).h, At(n).v) ==> 0 <= ReadAddress(At(n).h, At(n).v) < CELLS
    ensures Filling(At(n).h, At(n).v, true) ==> 0 <= WriteAddress(At(n).h, At(n).v) < CELLS
  {
  }

  /** The two halvings of the read address, undone. */
  lemma AddressIsCell(y: nat, x: nat, a: nat)
    requires x < 480
    ensures y / 2 * 240 + x / 2 == a <==> y - 2 * (a / 240) in {0, 1} && x - 2 * (a % 240) in {0, 1}
  {
    Parts(a, 240);
    if y / 2 * 240 + x / 2 == a {
      Quotient(a, y / 2, x / 2, 240);
    }
  }

  /** Every cell is shown by a square of two by two pixels and by no other. */
  lemma ShownByFour(n: nat, a: nat)
    requires a < CELLS
    ensures Shows(n, a)
       <==> At(n).v - 80 - 2 * (a / 240) in {0, 1} && At(n).h - 80 - 2 * (a % 240) in {0, 1}
  {
    var h, v := At(n).h, At(n).v;
    Parts(a, 240);
    if Visible(h, v) {
      AddressIsCell(v - 80, h - 80, a);
    }
  }

  // ------------------------------------------------------ the picture

  /** A run: what the memory held at reset, which frames draw, and the pixel the
      drawing logic offers at each clock, which may depend on the memory. */
  datatype Show = Show(first: Memory, drawing: nat -> bool, next: (nat, Memory) -> Colour)

  /** The memory n clocks after reset. */
  function Held(s: Show, n: nat): Memory
  {
    if n == 0 then s.first else
      var m := Held(s, n - 1);
      var c := At(n - 1);
      if Filling(c.h, c.v, s.drawing((n - 1) / FRAME))
      then AddressesFit(n - 1); m[WriteAddress(c.h, c.v) := s.next(n - 1, m)]
      else m
  }

  /** The colour frame k puts in a cell. */
  function Drawn(s: Show, k: nat, a: nat): Colour
  {
    s.next(k * FRAME + WritePlace(a), Held(s, k * FRAME + WritePlace(a)))
  }

  /** What a cell holds when frame k begins: the latest frame that drew decides. */
  function Left(s: Show, k: nat, a: nat): Colour
    requires a < CELLS
  {
    if k == 0 then s.first[a]
    else if s.drawing(k - 1) then Drawn(s, k - 1, a)
    else Left(s, k - 1, a)
  }

  lemma CellStep(s: Show, n: nat, a: nat)
    requires a < CELLS
    ensures Held(s, n + 1)[a]
         == if Writes(n, a, s.drawing) then s.next(n, Held(s, n)) else Held(s, n)[a]
  {
  }

  lemma InFrame(k: nat, p: nat)
    requires p < FRAME
    ensures (k * FRAME + p) / FRAME == k && (k * FRAME + p) % FRAME == p
  {
  }

  /** Between two clocks of a frame a cell changes only at its place. */
  lemma {:induction false} CellKept(s: Show, k: nat, p: nat, q: nat, a: nat)
    requires a < CELLS && p <= q <= FRAME
    requires !s.drawing(k) || q <= WritePlace(a) || WritePlace(a) < p
    ensures Held(s, k * FRAME + q)[a] == Held(s, k * FRAME + p)[a]
    decreases q
  {
    if p < q {
      CellKept(s, k, p, q - 1, a);
      InFrame(k, q - 1);
      WrittenOnce(k * FRAME + (q - 1), a, s.drawing);
      CellStep(s, k * FRAME + (q - 1), a);
    }
  }

  lemma PlaceFits(a: nat)
    requires a < CELLS
    ensures WritePlace(a) < FRAME
  {
  }

  lemma CellAtPlace(s: Show, k: nat, p: nat, a: nat)
    requires a < CELLS && s.drawing(k) && p == WritePlace(a)
    ensures Held(s, k * FRAME + p + 1)[a] == Drawn(s, k, a)
  {
    PlaceFits(a);
    InFrame(k, p);
    WrittenOnce(k * FRAME + p, a, s.drawing);
    CellStep(s, k * FRAME + p, a);
  }

  /** After its place in a drawing frame a cell holds what was drawn there. */
  lemma CellDrawn(s: Show, k: nat, q: nat, a: nat)
    requires a < CELLS && s.drawing(k) && WritePlace(a) < q <= FRAME
    ensures Held(s, k * FRAME + q)[a] == Drawn(s, k, a)
  {
    var p := WritePlace(a);
    CellAtPlace(s, k, p, a);
    CellKept(s, k, p + 1, q, a);
    assert k * FRAME + (p + 1) == k * FRAME + p + 1;
  }

  lemma {:induction false} FrameBegins(s: Show, k: nat, a: nat)
    requires a < CELLS
    ensures Held(s, k * FRAME)[a] == Left(s, k, a)
  {
    if k > 0 {
      FrameBegins(s, k - 1, a);
      PlaceFits(a);
      assert (k - 1) * FRAME + FRAME == k * FRAME && (k - 1) * FRAME + 0 == (k - 1) * FRAME;
      if s.drawing(k - 1) {
        CellDrawn(s, k - 1, FRAME, a);
      } else {
        CellKept(s, k - 1, 0, FRAME, a);
      }
    }
  }

  /** A cell is shown after its place in the frame, except on line 80. */
  lemma ShownBeforeOrAfter(n: nat, a: nat)
    requires a < CELLS && Shows(n, a)
    ensures if At(n).v == 80 then n % FRAME <= WritePlace(a) else WritePlace(a) < n % FRAME
  {
    PlaceInFrame(n);
    Parts(n % FRAME, LINE);
    ShownByFour(n, a);
  }

  /** Every visible pixel of every frame shows what this frame drew, except that
      line 80, and every line of a frame that does not draw, shows what the frames
      before left. */
  lemma PictureIs(s: Show, n: nat, a: nat)
    requires a < CELLS && Shows(n, a)
    ensures Held(s, n)[a] == if s.drawing(n / FRAME) && At(n).v != 80 then Drawn(s, n / FRAME, a)
                             else Left(s, n / FRAME, a)
  {
    var k, p := n / FRAME, n % FRAME;
    Parts(n, FRAME);
    ShownBeforeOrAfter(n, a);
    FrameBegins(s, k, a);
    if !s.drawing(k) || At(n).v == 80 {
      CellKept(s, k, 0, p, a);
    } else {
      CellDrawn(s, k, p, a);
    }
  }

  /** The game's registers are clocked by VGA_VS, and no edge of it falls on a line
      where cells are written or shown. */
  lemma RegistersHoldStill(n: nat)
    requires Rises(n) || Falls(n)
    ensures !(80 <= At(n).v < 400)
  {
    EdgesOfFrame(n);
    PlaceInFrame(n);
  }
}
