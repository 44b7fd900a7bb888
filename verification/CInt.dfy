/** Conversion to a 32-bit signed int. */
module CInt {
  const INT_MIN: int := -0x8000_0000
  const INT_MAX: int := 0x7FFF_FFFF

  /** The value a 32-bit int holds after storing x. */
  function Int32(x: int): (r: int)
    ensures INT_MIN <= r <= INT_MAX
    ensures (r - x) % 0x1_0000_0000 == 0
  {
    (x - INT_MIN) % 0x1_0000_0000 + INT_MIN
  }

  lemma Int32Exact(x: int)
    ensures Int32(x) == x <==> INT_MIN <= x <= INT_MAX
  {
  }

  lemma Int32Step(x: int, d: int)
    ensures Int32(Int32(x) + d) == Int32(x + d)
  {
    var k := (Int32(x) - x) / 0x1_0000_0000;
    assert Int32(x) == x + k * 0x1_0000_0000;
    assert (x + d - INT_MIN + k * 0x1_0000_0000) % 0x1_0000_0000 == (x + d - INT_MIN) % 0x1_0000_0000;
  }
}
