// The %x of alt_printf, which takes hexadecimal digits out of the word with
// shifts and masks, against the one that divides.

module HexPrint {
  import opened Digits
  import opened Division
  import opened IntPrint
  import opened Words

  // Bit operations on non-negative words, bit by bit.

  function And(a: nat, b: nat): nat
  {
    if a == 0 || b == 0 then 0
    else 2 * And(a / 2, b / 2) + if a % 2 == 1 && b % 2 == 1 then 1 else 0
  }

  function ShiftLeft(a: nat, s: nat): nat { if s == 0 then a else 2 * ShiftLeft(a, s - 1) }
  function ShiftRight(a: nat, s: nat): nat { if s == 0 then a else ShiftRight(a / 2, s - 1) }

  /** The digit in the four bits from position s. */
  function Nibble(v: nat, s: nat): nat { ShiftRight(v, s) % 16 }

  lemma AndOdd(v: nat, m: nat)
    ensures And(v, 2 * m + 1) == 2 * And(v / 2, m) + v % 2
  {
  }

  /** One bit at a time. */
  lemma LowBit(v: nat, m: nat)
    requires m > 0
    ensures v % (2 * m) == 2 * (v / 2 % m) + v % 2
  {
    Nested(v, 2, m);
    Parts(v % (2 * m), 2);
  }

  lemma FourBits(v: nat)
    ensures v % 16 == 8 * (v / 2 / 2 / 2 % 2) + 4 * (v / 2 / 2 % 2) + 2 * (v / 2 % 2) + v % 2
  {
    LowBit(v, 8);
    LowBit(v / 2, 4);
    LowBit(v / 2 / 2, 2);
  }

  lemma AndFifteen(v: nat)
    ensures And(v, 15) == v % 16
  {
    AndOdd(v, 7);
    AndOdd(v / 2, 3);
    AndOdd(v / 2 / 2, 1);
    AndOdd(v / 2 / 2 / 2, 0);
    FourBits(v);
  }

  /** Masking four bits in place keeps exactly that digit, in place. */
  lemma {:induction false} MaskInPlace(v: nat, s: nat)
    ensures And(v, ShiftLeft(15, s)) == ShiftLeft(Nibble(v, s), s)
  {
    if s == 0 {
      AndFifteen(v);
    } else {
      MaskInPlace(v / 2, s - 1);
      if v == 0 {
        ShiftOfZero(s);
      } else {
        MaskIsEven(s);
      }
    }
  }

  lemma MaskIsEven(s: nat)
    requires s > 0
    ensures ShiftLeft(15, s) % 2 == 0 && ShiftLeft(15, s) / 2 == ShiftLeft(15, s - 1)
  {
  }

  lemma {:induction false} ShiftOfZero(s: nat)
    ensures ShiftRight(0, s) == 0 && ShiftLeft(0, s) == 0
  {
    if s > 0 {
      ShiftOfZero(s - 1);
    }
  }

  lemma {:induction false} ShiftBack(d: nat, s: nat)
    ensures ShiftRight(ShiftLeft(d, s), s) == d
    ensures ShiftLeft(d, s) == 0 <==> d == 0
  {
    if s > 0 {
      ShiftBack(d, s - 1);
    }
  }

  lemma FourShifts(v: nat, s: nat)
    ensures ShiftRight(v, s + 4) == ShiftRight(v / 16, s)
  {
    assert ShiftRight(v, s + 4) == ShiftRight(v / 2, s + 3) == ShiftRight(v / 2 / 2, s + 2)
        == ShiftRight(v / 2 / 2 / 2, s + 1) == ShiftRight(v / 2 / 2 / 2 / 2, s);
    assert v / 2 / 2 / 2 / 2 == v / 16;
  }

  /** Shifting one more digit away divides by sixteen. */
  lemma {:induction false} ShiftRightLast(v: nat, k: nat)
    ensures ShiftRight(v, 4 * (k + 1)) == ShiftRight(v, 4 * k) / 16
    decreases k
  {
    FourShifts(v, 4 * k);
    if k > 0 {
      ShiftRightLast(v / 16, k - 1);
      FourShifts(v, 4 * (k - 1));
    } else {
      assert ShiftRight(v, 4) == ShiftRight(v / 16, 0);
    }
  }

  /** Prefixes of the digits: shifting k digits away leaves the others. */
  lemma TopDigits(v: nat, k: nat)
    requires ShiftRight(v, 4 * k) > 0
    ensures ShiftRight(v, 4 * (k + 1)) > 0 ==>
              Of(ShiftRight(v, 4 * k), 16) == Of(ShiftRight(v, 4 * (k + 1)), 16) + [Nibble(v, 4 * k)]
    ensures ShiftRight(v, 4 * (k + 1)) == 0 ==> Of(ShiftRight(v, 4 * k), 16) == [Nibble(v, 4 * k)]
  {
    ShiftRightLast(v, k);
  }

  /** Below a zero prefix, the digit is zero exactly when the longer prefix is. */
  lemma PrefixIsDigit(v: nat, k: nat)
    requires ShiftRight(v, 4 * k + 4) == 0
    ensures And(v, ShiftLeft(15, 4 * k)) == 0 <==> ShiftRight(v, 4 * k) == 0
  {
    IsZeroDigit(v, 4 * k);
    ShiftRightLast(v, k);
  }

  lemma TopDigit(v: U32)
    ensures ShiftRight(v, 32) == 0
  {
    assert Pow(16, 8) == WRAP;
    NothingAbove(v, 8);
  }

  lemma NotAllZero(v: nat, k: nat)
    requires v > 0 && ShiftRight(v, 4 * k) == 0
    ensures k > 0
  {
    assert ShiftRight(v, 0) == v;
  }

  /** The test of the first loop. */
  method DigitIsZero(v: U32, shift: nat, ghost k: nat) returns (zero: bool)
    requires shift == 4 * k && ShiftRight(v, 4 * k + 4) == 0
    ensures zero <==> ShiftRight(v, shift) == 0
  {
    PrefixIsDigit(v, k);
    zero := And(v, ShiftLeft(15, shift)) == 0;
  }

  /** The first loop: step down to the first digit that is not zero. */
  method FirstDigit(v: U32) returns (shift: nat)
    requires v > 0
    ensures shift <= 28 && shift % 4 == 0
    ensures ShiftRight(v, shift) > 0 && ShiftRight(v, shift + 4) == 0
  {
    shift := 28;
    ghost var k := 7;
    TopDigit(v);
    var zero := DigitIsZero(v, shift, k);
    while zero
      invariant 0 <= k <= 7 && shift == 4 * k
      invariant ShiftRight(v, shift + 4) == 0
      invariant zero <==> ShiftRight(v, shift) == 0
      decreases k
    {
      NotAllZero(v, k);
      shift := shift - 4;
      k := k - 1;
      zero := DigitIsZero(v, shift, k);
    }
  }

  /** The loop's test, and the digit it is about. */
  lemma IsZeroDigit(v: nat, s: nat)
    ensures And(v, ShiftLeft(15, s)) == 0 <==> Nibble(v, s) == 0
    ensures ShiftRight(And(v, ShiftLeft(15, s)), s) == Nibble(v, s)
  {
    MaskInPlace(v, s);
    ShiftBack(Nibble(v, s), s);
  }

  lemma {:induction false} NothingAbove(v: nat, k: nat)
    requires v < Pow(16, k)
    ensures ShiftRight(v, 4 * k) == 0
    decreases k
  {
    if k > 0 {
      FourShifts(v, 4 * (k - 1));
      NothingAbove(v / 16, k - 1);
    }
  }

  /** What has been printed when k digits are still to come. */
  function Printed(v: nat, k: nat): string
  {
    if ShiftRight(v, 4 * k) == 0 then "" else Text(Of(ShiftRight(v, 4 * k), 16), false)
  }

  lemma PrintedNext(v: nat, k: nat)
    requires ShiftRight(v, 4 * k) > 0
    ensures Printed(v, k) == Printed(v, k + 1) + [DigitChar(Nibble(v, 4 * k), false)]
  {
    TopDigits(v, k);
  }

  /** The second loop: print the digits from there down. */
  method PrintFrom(v: U32, shift0: int, ghost k0: nat) returns (out: string)
    requires shift0 == 4 * k0 && ShiftRight(v, 4 * k0) > 0 && ShiftRight(v, 4 * (k0 + 1)) == 0
    ensures out == Text(Of(v, 16), false)
  {
    out := "";
    var shift := shift0;
    ghost var todo := k0 + 1;
    while shift >= 0
      invariant 0 <= todo && shift == 4 * (todo - 1)
      invariant out == Printed(v, todo)
      invariant todo > 0 ==> ShiftRight(v, 4 * (todo - 1)) > 0
      invariant todo == 0 ==> v > 0
      decreases todo
    {
      IsZeroDigit(v, shift);
      var digit := ShiftRight(And(v, ShiftLeft(15, shift)), shift);
      PrintedNext(v, todo - 1);
      var c := if digit <= 9 then '0' + digit as char else 'a' + (digit - 10) as char;
      out := out + [c];
      if todo >= 2 {
        ShiftRightLast(v, todo - 2);
      } else {
        assert ShiftRight(v, 0) == v;
      }
      shift := shift - 4;
      todo := todo - 1;
    }
  }

  /** alt_printf's %x. */
  method PrintHex(v: U32) returns (out: string)
    ensures out == Text(Of(v, 16), false)
  {
    if v == 0 {
      out := "0";
      return;
    }
    var shift := FirstDigit(v);
    out := PrintFrom(v, shift, shift / 4);
  }

  /** The two hexadecimal printers emit the same text for every word, also when
      the dividing one is asked for zero padding but no width. */
  method PrintBoth(v: U32, zeros: bool) returns (shifted: string, divided: string)
    ensures shifted == divided
  {
    shifted := PrintHex(v);
    divided := PrintInteger(v, Format(16, false, -1, zeros, false));
  }
}
