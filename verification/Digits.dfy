// Positional notation: the digits of a number, most significant first and
// without leading zeros, and how a printer gets them by descending powers.

module Digits {
  import opened Division

  type Base = b: int | 2 <= b <= 16 witness 10

  function Pow(b: Base, k: nat): (p: int)
    ensures p >= 1
  {
    if k == 0 then 1 else PowStep(b, Pow(b, k - 1)); b * Pow(b, k - 1)
  }

  lemma PowStep(b: int, p: int)
    requires b >= 2 && p >= 1
    ensures b * p >= 2
  {
    MulMono(1, p, b);
  }

  /** The digits of v. */
  function Of(v: nat, b: Base): (ds: seq<int>)
    ensures |ds| >= 1 && forall i | 0 <= i < |ds| :: 0 <= ds[i] < b
    ensures |ds| > 1 ==> ds[0] > 0
  {
    if v < b then [v]
    else
      Parts(v, b);
      Smaller(v, b);
      Of(v / b, b) + [v % b]
  }

  lemma Smaller(v: int, b: int)
    requires b >= 2 && v >= b
    ensures 0 < v / b < v
  {
    Below(v, b, v);
    Below(v, b, 1);
    MulMono(2, b, v);
  }

  function Value(ds: seq<int>, b: Base): int
  {
    if ds == [] then 0 else Value(ds[..|ds| - 1], b) * b + ds[|ds| - 1]
  }

  /** Reading the digits back gives the number. */
  lemma {:induction false} ValueOf(v: nat, b: Base)
    ensures Value(Of(v, b), b) == v
    decreases v
  {
    if v < b {
      assert Of(v, b)[..0] == [];
    } else {
      Parts(v, b);
      Smaller(v, b);
      ValueOf(v / b, b);
      assert Of(v, b)[..|Of(v, b)| - 1] == Of(v / b, b);
    }
  }

  /** Exactly n digits, each being what is left divided by the next power. */
  function Fixed(v: nat, b: Base, n: nat): seq<int>
    decreases n
  {
    if n == 0 then []
    else
      Parts(v, Pow(b, n - 1));
      [v / Pow(b, n - 1)] + Fixed(v % Pow(b, n - 1), b, n - 1)
  }

  lemma {:induction false} FixedLastDigit(v: nat, b: Base, n: nat)
    requires n >= 2
    ensures v / b >= 0 && Fixed(v, b, n) == Fixed(v / b, b, n - 1) + [v % b]
    decreases n
  {
    var p := Pow(b, n - 2);
    PowStep(b, p);
    assert Pow(b, n - 1) == b * p;
    Parts(v, b);
    Parts(v, b * p);
    Nested(v, b, p);
    if n > 2 {
      FixedLastDigit(v % (b * p), b, n - 1);
    } else {
      assert p == 1 && b * p == b;
      assert Fixed(v % b, b, 1) == [v % b] + Fixed((v % b) % 1, b, 0);
      assert Fixed(v / b, b, 1) == [v / b] + Fixed((v / b) % 1, b, 0);
    }
  }

  /** One digit less, one power less. */
  lemma OneDigitLess(v: nat, b: Base, n: nat)
    requires n >= 2 && Pow(b, n - 1) <= v < Pow(b, n)
    ensures v >= b && Pow(b, n - 2) <= v / b < Pow(b, n - 1)
  {
    var p, p' := Pow(b, n - 1), Pow(b, n - 2);
    Parts(v, b);
    MulMono(1, p', b);
    Below(v, b, p);
    Below(v, b, p');
  }

  lemma OneDigit(v: nat, b: Base)
    requires v < Pow(b, 1)
    ensures Fixed(v, b, 1) == Of(v, b) == [v]
  {
    assert Pow(b, 0) == 1 && Pow(b, 1) == b;
    assert Fixed(v, b, 1) == [v / 1] + Fixed(v % 1, b, 0);
  }

  /** With as many digits as v needs, those are the digits of v. */
  lemma {:induction false} FixedIsOf(v: nat, b: Base, n: nat)
    requires n >= 1 && v < Pow(b, n) && (n == 1 || v >= Pow(b, n - 1))
    ensures Fixed(v, b, n) == Of(v, b) && |Of(v, b)| == n
    decreases n
  {
    if n == 1 {
      OneDigit(v, b);
    } else {
      OneDigitLess(v, b, n);
      FixedLastDigit(v, b, n);
      FixedIsOf(v / b, b, n - 1);
    }
  }
}
