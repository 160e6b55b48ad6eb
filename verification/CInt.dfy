/** Integer operations of C as the drivers use them: unsigned truncation and
    division that rounds toward zero. */
module CInt {

  const TWO_8: int := 0x100
  const TWO_16: int := 0x1_0000
  const TWO_24: int := 0x100_0000
  const TWO_32: int := 0x1_0000_0000
  const TWO_64: int := 0x1_0000_0000_0000_0000

  /** Conversion to `u16`. */
  function U16(x: int): (r: nat)
    ensures r < TWO_16
    ensures 0 <= x < TWO_16 ==> r == x
  {
    x % TWO_16
  }

  /** Conversion to `u32`. */
  function U32(x: int): (r: nat)
    ensures r < TWO_32
    ensures 0 <= x < TWO_32 ==> r == x
    ensures -TWO_32 <= x < 0 ==> r == x + TWO_32
  {
    x % TWO_32
  }

  /** Conversion to `u64`. */
  function U64(x: int): (r: nat)
    ensures r < TWO_64
    ensures 0 <= x < TWO_64 ==> r == x
    ensures -TWO_64 <= x < 0 ==> r == x + TWO_64
  {
    x % TWO_64
  }

  /** C's signed division: rounds toward zero. */
  function Quot(a: int, b: int): (q: int)
    requires b != 0
  {
    if a >= 0 then a / b else -((-a) / b)
  }

  function Abs(x: int): (r: nat)
  {
    if x < 0 then -x else x
  }

  // ----- products and quotients -----

  lemma ProductOrder(p: int, q: int, d: nat)
    requires p * d < q * d
    ensures p < q
  {
  }

  lemma ProductBelow(a: nat, a': nat, b: nat)
    requires a <= a'
    ensures a * b <= a' * b
  {
  }

  lemma QuotientTimes(x: nat, d: nat)
    requires 0 < d
    ensures (x / d) * d <= x < (x / d + 1) * d
  {
  }

  lemma QuotientMonotone(x: nat, y: nat, d: nat)
    requires 0 < d && x <= y
    ensures x / d <= y / d
  {
    QuotientTimes(x, d);
    QuotientTimes(y, d);
    ProductOrder(x / d, y / d + 1, d);
  }

  lemma QuotientIs(x: nat, d: nat, q: nat)
    requires 0 < d && q * d <= x < (q + 1) * d
    ensures x / d == q
  {
    QuotientTimes(x, d);
    ProductOrder(q, x / d + 1, d);
    ProductOrder(x / d, q + 1, d);
  }
}
