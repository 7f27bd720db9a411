// The gym floor: where the walls and statues stop the player, and which tiles
// are joined. Positions are the 10-bit coordinates of the character box; tiles
// are written by the bottom right corner of a box standing on them.

module Gym {
  import opened Words

  datatype Direction = Down | Up | Left | Right

  datatype Point = Point(x: U10, y: U10)

  function Add(a: U10, k: int): U10 { (a + k) % 1024 }

  /** gymBoundsChecker. Its sums are wider than 10 bits, so they do not wrap. */
  predicate AtBounds(d: Direction, x: U10, y: U10)
  {
    match d
    case Down =>
      y == 107 || y == 235 || y == 363
      || ((x + 15 == 207 || x + 15 == 271) && y + 20 == 303)
    case Up =>
      y == 282 || y == 154 || y == 26
      || ((x + 15 == 207 || x + 15 == 271) && y + 20 == 351)
    case Left =>
      x == 160 || x == 320 || x == 480
      || ((x == 208 || x == 272) && 303 < y + 20 < 336)
    case Right =>
      x == 128 || x == 288 || x == 448
      || ((x + 15 == 191 || x + 15 == 255) && 303 < y + 20 < 336)
  }

  /** The three columns and rows of rooms. The left column's west wall is tested
      at 480, so it reaches round through 1023 to 480. */
  predicate InColumn(x: U10) { 160 <= x <= 288 || 320 <= x <= 448 || 480 <= x || x <= 128 }
  predicate InRow(y: U10) { 26 <= y <= 107 || 154 <= y <= 235 || 282 <= y <= 363 }

  // The thirteen joined pairs: grid columns X and rows Y, and the middle X35.
  const X0: U10 := 15
  const X1: U10 := 143
  const X2: U10 := 207
  const X3: U10 := 271
  const X4: U10 := 335
  const X5: U10 := 463
  const X35: U10 := 303
  const Y0: U10 := 79
  const Y1: U10 := 127
  const Y2: U10 := 207
  const Y3: U10 := 255
  const Y4: U10 := 335
  const Y5: U10 := 383

  const PAIRS: seq<(Point, Point)> := [
    (Point(X35, Y4), Point(X5, Y5)),   // A: rooms 8 (start) and 9
    (Point(X5, Y2), Point(X5, Y4)),    // B: 6, 9
    (Point(X5, Y0), Point(X4, Y4)),    // C: 3, 9
    (Point(X1, Y4), Point(X4, Y5)),    // D: 7, 9
    (Point(X0, Y2), Point(X5, Y3)),    // E: 4, 6
    (Point(X4, Y0), Point(X4, Y2)),    // F: 3, 6
    (Point(X2, Y0), Point(X4, Y3)),    // G: 2, 6
    (Point(X5, Y1), Point(X0, Y4)),    // H: 3, 7
    (Point(X0, Y0), Point(X4, Y1)),    // I: 1, 3
    (Point(X1, Y0), Point(X3, Y0)),    // J: 1, 2
    (Point(X3, Y1), Point(X0, Y5)),    // K: 2, 7
    (Point(X2, Y1), Point(X1, Y2)),    // L: 2, 4
    (Point(X0, Y1), Point(X35, Y3))]   // M: 1, 5 (finish)

  predicate OnTile(p: Point)
  {
    exists i | 0 <= i < |PAIRS| :: p == PAIRS[i].0 || p == PAIRS[i].1
  }

  /** The teleport table; the last branch is the default of the case statement. */
  function PartnerFrom(p: Point, i: nat): Point
    requires i <= |PAIRS|
    decreases |PAIRS| - i
  {
    if i == |PAIRS| then Point(0, 0)
    else if p == PAIRS[i].0 then PAIRS[i].1
    else if p == PAIRS[i].1 then PAIRS[i].0
    else PartnerFrom(p, i + 1)
  }

  function Partner(p: Point): Point { PartnerFrom(p, 0) }

  /** No tile is listed twice, so the order of the branches does not matter. */
  lemma TilesAreDistinct(i: int, j: int)
    requires 0 <= i < |PAIRS| && 0 <= j < |PAIRS|
    ensures PAIRS[i].0 != PAIRS[j].1
    ensures i != j ==> PAIRS[i].0 != PAIRS[j].0 && PAIRS[i].1 != PAIRS[j].1
  {
  }

  lemma {:induction false} PartnerFromIs(i: nat, k: nat)
    requires i <= k < |PAIRS|
    ensures PartnerFrom(PAIRS[k].0, i) == PAIRS[k].1 && PartnerFrom(PAIRS[k].1, i) == PAIRS[k].0
    decreases k - i
  {
    if i < k {
      TilesAreDistinct(i, k);
      TilesAreDistinct(k, i);
      PartnerFromIs(i + 1, k);
    } else {
      TilesAreDistinct(k, k);
    }
  }

  /** Teleporting is an involution of the tiles without fixed points. */
  lemma PartnerIsInvolution(p: Point)
    requires OnTile(p)
    ensures OnTile(Partner(p)) && Partner(Partner(p)) == p && Partner(p) != p
  {
    var k :| 0 <= k < |PAIRS| && (p == PAIRS[k].0 || p == PAIRS[k].1);
    PartnerFromIs(0, k);
    TilesAreDistinct(k, k);
  }

  /** Corner (x0, y0) and corner (x1, y1) lead to each other. */
  predicate Joined(x0: U10, y0: U10, x1: U10, y1: U10)
  {
    Partner(Point(x0, y0)) == Point(x1, y1) && Partner(Point(x1, y1)) == Point(x0, y0)
  }

  lemma PairIsJoined(k: nat)
    requires k < |PAIRS|
    ensures var (p, q) := PAIRS[k]; Joined(p.x, p.y, q.x, q.y)
  {
    PartnerFromIs(0, k);
  }

  /** The thirteen joined pairs, A to M, in the coordinates of the floor. */
  lemma JoinedPairs()
    ensures Joined(303, 335, 463, 383) && Joined(463, 207, 463, 335) && Joined(463, 79, 335, 335)
    ensures Joined(143, 335, 335, 383) && Joined(15, 207, 463, 255) && Joined(335, 79, 335, 207)
    ensures Joined(207, 79, 335, 255) && Joined(463, 127, 15, 335) && Joined(15, 79, 335, 127)
    ensures Joined(143, 79, 271, 79) && Joined(271, 127, 15, 383) && Joined(207, 127, 143, 207)
    ensures Joined(15, 127, 303, 255)
    ensures |PAIRS| == 13
  {
    forall k | 0 <= k < 13
      ensures var (p, q) := PAIRS[k]; Joined(p.x, p.y, q.x, q.y)
    {
      PairIsJoined(k);
    }
    assert PAIRS[0] == (Point(303, 335), Point(463, 383)) && PAIRS[1] == (Point(463, 207), Point(463, 335));
    assert PAIRS[2] == (Point(463, 79), Point(335, 335)) && PAIRS[3] == (Point(143, 335), Point(335, 383));
    assert PAIRS[4] == (Point(15, 207), Point(463, 255)) && PAIRS[5] == (Point(335, 79), Point(335, 207));
    assert PAIRS[6] == (Point(207, 79), Point(335, 255)) && PAIRS[7] == (Point(463, 127), Point(15, 335));
    assert PAIRS[8] == (Point(15, 79), Point(335, 127)) && PAIRS[9] == (Point(143, 79), Point(271, 79));
    assert PAIRS[10] == (Point(271, 127), Point(15, 383)) && PAIRS[11] == (Point(207, 127), Point(143, 207));
    assert PAIRS[12] == (Point(15, 127), Point(303, 255));
  }

  /** Every tile stands in a room. */
  lemma TilesAreInRooms(p: Point)
    requires OnTile(p)
    ensures p.x >= 15 && p.y >= 20 && InColumn(p.x - 15) && InRow(p.y - 20)
  {
  }
}
