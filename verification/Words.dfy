// Machine words and hardware register widths, and the option type shared by the models.

module Words {

  const WRAP := 0x1_0000_0000

  type U32 = x: int | 0 <= x < WRAP
  type U10 = i: int | 0 <= i < 1024
  type S32 = x: int | -0x8000_0000 <= x < 0x8000_0000

  datatype Option<+T> = None | Some(value: T)

  /** Storing a 32-bit result in a signed word. */
  function Signed(x: int): S32 { (x + 0x8000_0000) % WRAP - 0x8000_0000 }

  lemma SignedOfSigned(x: int, d: int)
    ensures Signed(Signed(x) + d) == Signed(x + d)
  {
    var k := (x + 0x8000_0000) / WRAP;
    assert Signed(x) == x - k * WRAP;
    assert (x + d + 0x8000_0000) % WRAP == (x + d - k * WRAP + 0x8000_0000) % WRAP;
  }
}
