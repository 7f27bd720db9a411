// The integer conversions of the logging printf.

module IntPrint {
  import opened Division
  import opened Digits
  import opened Words

  /** What the letters of a conversion have asked for; width -1 means none. */
  datatype Format = Format(base: int, signed: bool, width: int, zeros: bool, upper: bool)

  predicate IsFormat(f: Format) { f.base in {8, 10, 16} && f.width >= -1 }

  function DigitChar(d: int, upper: bool): char
    requires 0 <= d < 16
  {
    if d <= 9 then '0' + d as char
    else (if upper then 'A' else 'a') + (d - 10) as char
  }

  predicate AreDigits(ds: seq<int>) { forall i | 0 <= i < |ds| :: 0 <= ds[i] < 16 }

  function Text(ds: seq<int>, upper: bool): string
    requires AreDigits(ds)
  {
    seq(|ds|, i requires 0 <= i < |ds| => DigitChar(ds[i], upper))
  }

  function Repeat(c: char, n: int): string
  {
    if n <= 0 then "" else Repeat(c, n - 1) + [c]
  }

  predicate Negative(raw: U32, f: Format) { f.signed && raw >= 0x8000_0000 }

  /** The magnitude printed: two's complement negation of a negative word. */
  function Magnitude(raw: U32, f: Format): U32
  {
    if Negative(raw, f) then (WRAP - raw) % WRAP else raw
  }

  function Padding(negative: bool, f: Format, count: int): int
  {
    if negative then f.width - count - 1 else f.width - count
  }

  /** What precedes `count` digits: zeros go behind the sign, blanks before it. */
  function Lead(negative: bool, f: Format, count: int): string
  {
    var pad := Padding(negative, f, count);
    match (f.zeros, negative)
    case (true, true) => "-" + Repeat('0', pad)
    case (true, false) => Repeat('0', pad)
    case (false, true) => Repeat(' ', pad) + "-"
    case (false, false) => Repeat(' ', pad)
  }

  function Numeral(raw: U32, f: Format): string
    requires IsFormat(f)
  {
    Text(Of(Magnitude(raw, f), f.base), f.upper)
  }

  /** The text of one conversion. */
  function Rendered(raw: U32, f: Format): string
    requires IsFormat(f)
  {
    Lead(Negative(raw, f), f, |Numeral(raw, f)|) + Numeral(raw, f)
  }

  // ------------------------------------------------------------- the program

  /** alt_log_repchar */
  method RepChar(c: char, r: int, out: string) returns (out': string)
    ensures out' == out + Repeat(c, r)
  {
    out' := out;
    var left := r;
    while left > 0
      invariant left <= r || left == r
      invariant out' + Repeat(c, left) == out + Repeat(c, r)
      decreases left
    {
      RepeatFirst(c, left);
      out' := out' + [c];
      left := left - 1;
    }
  }

  lemma {:induction false} RepeatFirst(c: char, n: int)
    requires n > 0
    ensures Repeat(c, n) == [c] + Repeat(c, n - 1)
  {
    if n > 1 {
      RepeatFirst(c, n - 1);
    }
  }

  /** Count the digits, and find the largest power not above v: it never
      overflows, because it never exceeds v. */
  method CountDigits(v: U32, base: Base) returns (p: U32, digitCount: nat)
    ensures digitCount >= 1 && p == Pow(base, digitCount - 1)
    ensures v < Pow(base, digitCount) && (digitCount == 1 || p <= v)
  {
    var vShrink: U32 := v;
    p, digitCount := 1, 1;
    Parts(v, 1);
    while true
      invariant digitCount >= 1 && p == Pow(base, digitCount - 1)
      invariant vShrink == v / p && (digitCount == 1 || p <= v)
      decreases vShrink
    {
      PowStep(base, p);
      Nested(v, p, base);
      Below(v, p * base, 1);
      Below(v, p, vShrink + 1);
      Parts(vShrink, base);
      Below(vShrink, base, vShrink + 1);
      assert Pow(base, digitCount) == base * p == p * base;
      ghost var before := vShrink;
      vShrink := vShrink / base;
      if vShrink == 0 {
        break;
      }
      Shrinks(before, base);
      digitCount := digitCount + 1;
      p := p * base;
    }
  }

  lemma Shrinks(v: int, b: int)
    requires b >= 2 && v / b > 0
    ensures v / b < v
  {
    Below(v, b, 1);
    Smaller(v, b);
  }

  lemma {:induction false} FixedAreDigits(v: nat, b: Base, n: nat)
    requires v < Pow(b, n)
    ensures |Fixed(v, b, n)| == n && AreDigits(Fixed(v, b, n))
    decreases n
  {
    if n > 0 {
      var p := Pow(b, n - 1);
      Parts(v, p);
      Below(v, p, b);
      FixedAreDigits(v % p, b, n - 1);
    }
  }

  lemma TextOfFirst(d: int, ds: seq<int>, upper: bool)
    requires 0 <= d < 16 && AreDigits(ds)
    ensures AreDigits([d] + ds) && Text([d] + ds, upper) == [DigitChar(d, upper)] + Text(ds, upper)
  {
  }

  /** The digit loop: the quotient by each power in turn. */
  method PrintDigits(v0: U32, p0: U32, ghost n: nat, base: Base, upper: bool, out: string) returns (out': string)
    requires n >= 1 && p0 == Pow(base, n - 1) && v0 < Pow(base, n)
    ensures AreDigits(Fixed(v0, base, n)) && out' == out + Text(Fixed(v0, base, n), upper)
  {
    var v: U32, p: U32 := v0, p0;
    ghost var k := n;
    out' := out;
    FixedAreDigits(v0, base, n);
    while p != 0
      invariant 0 <= k <= n && p == (if k == 0 then 0 else Pow(base, k - 1))
      invariant v < Pow(base, k)
      invariant |Fixed(v, base, k)| == k && AreDigits(Fixed(v, base, k))
      invariant out' + Text(Fixed(v, base, k), upper) == out + Text(Fixed(v0, base, n), upper)
      decreases k
    {
      Parts(v, p);
      Below(v, p, base);
      var d := v / p;
      FixedAreDigits(v % p, base, k - 1);
      TextOfFirst(d, Fixed(v % p, base, k - 1), upper);
      out' := out' + [DigitChar(d, upper)];
      v := v % p;
      NextPower(base, k);
      p := p / base;
      k := k - 1;
    }
  }

  lemma NextPower(b: Base, k: nat)
    requires k >= 1
    ensures Pow(b, k - 1) / b == if k == 1 then 0 else Pow(b, k - 2)
  {
    if k > 1 {
      Quotient(Pow(b, k - 1), Pow(b, k - 2), 0, b);
    }
  }

  method PrintLead(sign: bool, f: Format, digitCount: int) returns (out: string)
    ensures out == Lead(sign, f, digitCount)
  {
    out := "";
    var width := f.width - digitCount;
    if f.zeros {
      if sign {
        out := out + "-";
        width := width - 1;
      }
      out := RepChar('0', width, out);
    } else {
      if sign {
        width := width - 1;
      }
      out := RepChar(' ', width, out);
      if sign {
        out := out + "-";
      }
    }
  }

  /** The integer conversion of alt_log_private_printf. */
  method PrintInteger(raw: U32, f: Format) returns (out: string)
    requires IsFormat(f)
    ensures out == Rendered(raw, f)
  {
    var v := raw;
    var sign := false;
    if f.signed && raw >= 0x8000_0000 {
      v := (WRAP - raw) % WRAP;
      sign := true;
    }
    var p, digitCount := CountDigits(v, f.base);
    FixedIsOf(v, f.base, digitCount);
    out := PrintLead(sign, f, digitCount);
    out := PrintDigits(v, p, digitCount, f.base, f.upper, out);
  }

  // -------------------------------------------------------------- properties

  function DigitValue(c: char): int
  {
    if '0' <= c <= '9' then (c - '0') as int
    else if 'a' <= c <= 'f' then (c - 'a') as int + 10
    else if 'A' <= c <= 'F' then (c - 'A') as int + 10
    else 0
  }

  function ReadDigits(s: string, b: Base): int
  {
    if s == "" then 0 else ReadDigits(s[..|s| - 1], b) * b + DigitValue(s[|s| - 1])
  }

  /** Reading a number: skip blanks, take a sign, then digits. */
  function Read(s: string, b: Base): int
  {
    if s != "" && s[0] == ' ' then Read(s[1..], b)
    else if s != "" && s[0] == '-' then -ReadDigits(s[1..], b)
    else ReadDigits(s, b)
  }

  /** The number a 32-bit word stands for. */
  function Meaning(raw: U32, signed: bool): int
  {
    if signed && raw >= 0x8000_0000 then raw - WRAP else raw
  }

  lemma {:induction false} ReadText(ds: seq<int>, upper: bool, b: Base)
    requires AreDigits(ds)
    ensures ReadDigits(Text(ds, upper), b) == Value(ds, b)
  {
    if ds != [] {
      var n := |ds| - 1;
      ReadText(ds[..n], upper, b);
      assert Text(ds, upper)[..n] == Text(ds[..n], upper);
    }
  }

  lemma {:induction false} ReadZeros(n: int, s: string, b: Base)
    ensures ReadDigits(Repeat('0', n) + s, b) == ReadDigits(s, b)
    decreases |s| + if n > 0 then n else 0
  {
    if s != "" {
      assert (Repeat('0', n) + s)[..|Repeat('0', n) + s| - 1] == Repeat('0', n) + s[..|s| - 1];
      ReadZeros(n, s[..|s| - 1], b);
    } else {
      assert Repeat('0', n) + s == Repeat('0', n);
      if n > 0 {
        assert Repeat('0', n)[..|Repeat('0', n)| - 1] == Repeat('0', n - 1) + "";
        ReadZeros(n - 1, "", b);
      }
    }
  }

  lemma {:induction false} ReadBlanks(n: int, s: string, b: Base)
    ensures Read(Repeat(' ', n) + s, b) == Read(s, b)
    decreases if n > 0 then n else 0
  {
    if n > 0 {
      RepeatFirst(' ', n);
      assert (Repeat(' ', n) + s)[1..] == Repeat(' ', n - 1) + s;
      ReadBlanks(n - 1, s, b);
    } else {
      assert Repeat(' ', n) + s == s;
    }
  }

  lemma ReadSigned(tail: string, b: Base)
    ensures Read("-" + tail, b) == -ReadDigits(tail, b)
  {
    assert ("-" + tail)[1..] == tail;
  }

  lemma ReadUnsigned(s: string, b: Base)
    requires s != "" && s[0] != ' ' && s[0] != '-'
    ensures Read(s, b) == ReadDigits(s, b)
  {
  }

  lemma ReadSignedZeros(pad: int, text: string, b: Base)
    ensures Read("-" + Repeat('0', pad) + text, b) == -ReadDigits(text, b)
  {
    var tail := Repeat('0', pad) + text;
    assert "-" + Repeat('0', pad) + text == "-" + tail;
    ReadSigned(tail, b);
    ReadZeros(pad, text, b);
  }

  lemma ReadUnsignedZeros(pad: int, text: string, b: Base)
    requires text != "" && text[0] != ' ' && text[0] != '-'
    ensures Read(Repeat('0', pad) + text, b) == ReadDigits(text, b)
  {
    StartsWithDigit(pad, text);
    ReadUnsigned(Repeat('0', pad) + text, b);
    ReadZeros(pad, text, b);
  }

  lemma ReadZeroPadded(text: string, f: Format, negative: bool)
    requires IsFormat(f) && f.zeros && text != "" && text[0] != ' ' && text[0] != '-'
    ensures Read(Lead(negative, f, |text|) + text, f.base)
            == if negative then -ReadDigits(text, f.base) else ReadDigits(text, f.base)
  {
    if negative {
      ReadSignedZeros(Padding(negative, f, |text|), text, f.base);
    } else {
      ReadUnsignedZeros(Padding(negative, f, |text|), text, f.base);
    }
  }

  lemma ReadBlankPadded(text: string, f: Format, negative: bool)
    requires IsFormat(f) && !f.zeros && text != "" && text[0] != ' ' && text[0] != '-'
    ensures Read(Lead(negative, f, |text|) + text, f.base)
            == if negative then -ReadDigits(text, f.base) else ReadDigits(text, f.base)
  {
    var blanks := Repeat(' ', Padding(negative, f, |text|));
    if negative {
      assert (blanks + "-") + text == blanks + ("-" + text);
      ReadBlanks(Padding(negative, f, |text|), "-" + text, f.base);
      ReadSigned(text, f.base);
    } else {
      ReadBlanks(Padding(negative, f, |text|), text, f.base);
      ReadUnsigned(text, f.base);
    }
  }

  lemma NumeralStarts(raw: U32, f: Format)
    requires IsFormat(f)
    ensures var text := Numeral(raw, f); text != "" && text[0] != ' ' && text[0] != '-'
    ensures |Numeral(raw, f)| > 1 ==> Numeral(raw, f)[0] != '0'
  {
    var ds := Of(Magnitude(raw, f), f.base);
    assert Text(ds, f.upper)[0] == DigitChar(ds[0], f.upper);
  }

  lemma NumeralReads(raw: U32, f: Format)
    requires IsFormat(f)
    ensures ReadDigits(Numeral(raw, f), f.base) == Magnitude(raw, f)
  {
    ReadText(Of(Magnitude(raw, f), f.base), f.upper, f.base);
    ValueOf(Magnitude(raw, f), f.base);
  }

  lemma ReadPadded(text: string, f: Format, negative: bool)
    requires IsFormat(f) && text != "" && text[0] != ' ' && text[0] != '-'
    ensures Read(Lead(negative, f, |text|) + text, f.base)
            == if negative then -ReadDigits(text, f.base) else ReadDigits(text, f.base)
  {
    if f.zeros {
      ReadZeroPadded(text, f, negative);
    } else {
      ReadBlankPadded(text, f, negative);
    }
  }

  /** Reading the printed text gives back what the word stands for, for every
      word (the smallest integer included), base, signedness, width and padding. */
  lemma PrintRoundTrip(raw: U32, f: Format)
    requires IsFormat(f)
    ensures Read(Rendered(raw, f), f.base) == Meaning(raw, f.signed)
  {
    NumeralReads(raw, f);
    NumeralStarts(raw, f);
    ReadPadded(Numeral(raw, f), f, Negative(raw, f));
  }

  lemma StartsWithDigit(n: int, s: string)
    requires s != "" && s[0] != ' ' && s[0] != '-'
    ensures Repeat('0', n) + s != ""
    ensures (Repeat('0', n) + s)[0] != ' ' && (Repeat('0', n) + s)[0] != '-'
  {
    if n > 0 {
      RepeatFirst('0', n);
    }
  }

  lemma {:induction false} RepeatLength(c: char, n: int)
    ensures |Repeat(c, n)| == if n > 0 then n else 0
    decreases if n > 0 then n else 0
  {
    if n > 0 {
      RepeatLength(c, n - 1);
    }
  }

  /** The text is as wide as asked, or as wide as the digits and sign need; it
      ends with the digits, which have no leading zero of their own. */
  lemma PrintLength(raw: U32, f: Format)
    requires IsFormat(f)
    ensures var need := |Of(Magnitude(raw, f), f.base)| + (if Negative(raw, f) then 1 else 0);
            |Rendered(raw, f)| == if f.width > need then f.width else need
    ensures var text := Numeral(raw, f);
            |text| <= |Rendered(raw, f)| && Rendered(raw, f)[|Rendered(raw, f)| - |text|..] == text
            && (|text| > 1 ==> text[0] != '0')
  {
    var pad := Padding(Negative(raw, f), f, |Numeral(raw, f)|);
    RepeatLength('0', pad);
    RepeatLength(' ', pad);
    NumeralStarts(raw, f);
  }

  lemma {:induction false} RepeatAt(c: char, n: int, i: nat)
    requires i < n
    ensures |Repeat(c, n)| == n && Repeat(c, n)[i] == c
  {
    RepeatLength(c, n);
    RepeatLength(c, n - 1);
    if i < n - 1 {
      RepeatAt(c, n - 1, i);
    }
  }

  /** A digit character of the alphabet asked for. */
  predicate IsDigitOf(c: char, upper: bool)
  {
    '0' <= c <= '9' || if upper then 'A' <= c <= 'F' else 'a' <= c <= 'f'
  }

  lemma NumeralIsDigits(raw: U32, f: Format, i: nat)
    requires IsFormat(f) && i < |Numeral(raw, f)|
    ensures IsDigitOf(Numeral(raw, f)[i], f.upper)
  {
  }

  lemma LeadAt(negative: bool, f: Format, count: nat, i: nat)
    requires i < |Lead(negative, f, count)|
    ensures Lead(negative, f, count)[i]
         == if negative && i == (if f.zeros then 0 else |Lead(negative, f, count)| - 1) then '-'
            else if f.zeros then '0' else ' '
  {
    var pad := Padding(negative, f, count);
    var c := if f.zeros then '0' else ' ';
    RepeatLength(c, pad);
    var j := if f.zeros && negative then i - 1 else i;
    if 0 <= j < pad {
      RepeatAt(c, pad, j);
    }
  }

  /** Character by character: with zeros, the sign is first and zeros follow it; else
      it is last before the digits and blanks precede it; then come the digits, all of
      the alphabet asked for. */
  lemma PrintLayout(raw: U32, f: Format, i: nat)
    requires IsFormat(f) && i < |Rendered(raw, f)|
    ensures var c := Rendered(raw, f)[i];
      var lead := |Rendered(raw, f)| - |Of(Magnitude(raw, f), f.base)|;
      if i >= lead then IsDigitOf(c, f.upper)
      else c == if Negative(raw, f) && i == (if f.zeros then 0 else lead - 1) then '-'
                else if f.zeros then '0' else ' '
  {
    var count := |Numeral(raw, f)|;
    var lead := |Lead(Negative(raw, f), f, count)|;
    if i < lead {
      LeadAt(Negative(raw, f), f, count, i);
    } else {
      NumeralIsDigits(raw, f, i - lead);
    }
  }
}
