/** Go's int and int64: two's complement on 64 bits, and division that truncates towards zero. */
module Int64 {

  const TWO_63: int := 0x8000_0000_0000_0000
  const TWO_64: int := 0x1_0000_0000_0000_0000

  predicate Fits(x: int) {
    -TWO_63 <= x < TWO_63
  }

  function Wrap(x: int): (r: int)
    ensures Fits(r)
    ensures Fits(x) ==> r == x
  {
    (x + TWO_63) % TWO_64 - TWO_63
  }

  /** Integer division as Go performs it. */
  function Quotient(a: int, b: int): int
    requires b > 0
  {
    if a >= 0 then a / b else -(-a / b)
  }

  lemma ModUnique(x: int, k: int, r: int)
    requires 0 <= r < TWO_64 && x == k * TWO_64 + r
    ensures x % TWO_64 == r
  {
  }

  // Adding a multiple of 2^64 changes nothing.
  lemma WrapShift(x: int, k: int)
    ensures Wrap(x + k * TWO_64) == Wrap(x)
  {
    var q, r := (x + TWO_63) / TWO_64, (x + TWO_63) % TWO_64;
    ModUnique(x + k * TWO_64 + TWO_63, q + k, r);
  }

  lemma WrapIsShift(x: int) returns (k: int)
    ensures Wrap(x) == x + k * TWO_64
  {
    k := -((x + TWO_63) / TWO_64);
  }

  // Wrapping an intermediate sum does not change the wrapped total.
  lemma WrapAdd(x: int, y: int)
    ensures Wrap(Wrap(x) + y) == Wrap(x + y)
  {
    var k := WrapIsShift(x);
    WrapShift(x + y, k);
  }

  lemma WrapFalls(x: int)
    requires x >= TWO_63
    ensures Wrap(x) <= x - TWO_64
  {
    var k := WrapIsShift(x);
  }

  lemma WrapDigit(x: int, d: int)
    ensures Wrap(Wrap(x) * 10 + d) == Wrap(x * 10 + d)
  {
    var k := WrapIsShift(x);
    WrapShift(x * 10 + d, 10 * k);
  }
}
