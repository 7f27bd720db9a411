// The circular buffers of the fast JTAG UART driver, as values.
//
// A ring is a fixed block of LEN slots and two indices. The producer owns the
// index `in` (next slot to fill), the consumer owns `out` (next slot to empty);
// the ring is empty when they meet, so it can hold at most LEN - 1 items.

module Ring {

  const LEN := 2048

  type Byte = b: int | 0 <= b < 256

  predicate IsIndex(i: int) { 0 <= i < LEN }

  /** How many items lie between `out` and `in`, going round. */
  function Used(inn: int, out: int): int
  {
    if out <= inn then inn - out else LEN - out + inn
  }

  /** The items, oldest first. */
  function Contents(buf: seq<Byte>, inn: int, out: int): seq<Byte>
    requires |buf| == LEN && IsIndex(inn) && IsIndex(out)
  {
    if out <= inn then buf[out..inn] else buf[out..] + buf[..inn]
  }

  /** The writer's count: slots that can be filled from `in` without wrapping. */
  function FreeRun(inn: int, out: int): int
  {
    if inn < out then out - 1 - inn
    else if out > 0 then LEN - inn
    else LEN - 1 - inn
  }

  /** The reader's count: items that can be taken from `out` without wrapping. */
  function FilledRun(inn: int, out: int): int
  {
    if inn >= out then inn - out else LEN - out
  }

  function Advance(i: int, n: int): int { (i + n) % LEN }

  lemma AdvanceIs(i: int, n: int)
    requires IsIndex(i) && 0 <= n && i + n <= LEN
    ensures Advance(i, n) == if i + n < LEN then i + n else 0
  {
  }

  lemma ContentsLength(buf: seq<Byte>, inn: int, out: int)
    requires |buf| == LEN && IsIndex(inn) && IsIndex(out)
    ensures |Contents(buf, inn, out)| == Used(inn, out) <= LEN - 1
  {
  }

  /** The writer finds no room exactly when LEN - 1 items are waiting, and the
      reader finds nothing exactly when none is. */
  lemma RunsAreExact(inn: int, out: int)
    requires IsIndex(inn) && IsIndex(out)
    ensures FreeRun(inn, out) == 0 <==> Used(inn, out) == LEN - 1
    ensures FilledRun(inn, out) == 0 <==> Used(inn, out) == 0
    ensures 0 <= FreeRun(inn, out) <= LEN - 1 - Used(inn, out)
    ensures 0 <= FilledRun(inn, out) <= Used(inn, out)
    ensures inn + FreeRun(inn, out) <= LEN && out + FilledRun(inn, out) <= LEN
    ensures Advance(inn, 1) == out <==> Used(inn, out) == LEN - 1
  {
    AdvanceIs(inn, 1);
  }

  /** A count taken from a stale index is still safe: while the other side only
      makes progress, the contiguous free (or filled) run can only grow. */
  lemma StaleCountIsSafe(inn: int, out: int, inn': int, out': int)
    requires IsIndex(inn) && IsIndex(out) && IsIndex(inn') && IsIndex(out')
    ensures inn' == inn && Used(inn, out') <= Used(inn, out) ==> FreeRun(inn, out') >= FreeRun(inn, out)
    ensures out' == out && Used(inn', out) >= Used(inn, out) ==> FilledRun(inn', out) >= FilledRun(inn, out)
  {
  }

  /** Filling a free slot changes nothing the consumer can see. */
  lemma FreeSlotIsInvisible(buf: seq<Byte>, inn: int, out: int, k: int, b: Byte)
    requires |buf| == LEN && IsIndex(inn) && IsIndex(out)
    requires inn <= k < inn + FreeRun(inn, out)
    ensures 0 <= k < LEN && Contents(buf[k := b], inn, out) == Contents(buf, inn, out)
  {
  }

  /** Advancing `in` over free slots appends exactly what was put in them. */
  lemma PublishRun(buf: seq<Byte>, inn: int, out: int, n: int)
    requires |buf| == LEN && IsIndex(inn) && IsIndex(out)
    requires 0 <= n <= FreeRun(inn, out)
    ensures inn + n <= LEN && IsIndex(Advance(inn, n))
    ensures Contents(buf, Advance(inn, n), out) == Contents(buf, inn, out) + buf[inn..inn + n]
    ensures Used(Advance(inn, n), out) == Used(inn, out) + n
  {
    AdvanceIs(inn, n);
  }

  /** Advancing `out` over a contiguous filled run removes exactly the oldest
      items, and they are the ones stored there. */
  lemma PopRun(buf: seq<Byte>, inn: int, out: int, n: int)
    requires |buf| == LEN && IsIndex(inn) && IsIndex(out)
    requires 0 <= n <= FilledRun(inn, out)
    ensures out + n <= LEN && n <= |Contents(buf, inn, out)|
    ensures IsIndex(Advance(out, n))
    ensures Contents(buf, inn, out)[..n] == buf[out..out + n]
    ensures Contents(buf, inn, Advance(out, n)) == Contents(buf, inn, out)[n..]
    ensures Used(inn, Advance(out, n)) == Used(inn, out) - n
  {
    AdvanceIs(out, n);
  }
}
