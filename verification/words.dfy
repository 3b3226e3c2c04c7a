/** Unsigned machine arithmetic, where it can wrap. */
module Words {
  const TWO32: nat := 0x1_0000_0000
  const TWO64: nat := 0x1_0000_0000_0000_0000

  /** `a - b` on `unsigned long long`. */
  function Sub64(a: nat, b: nat): nat
  {
    (a - b) % TWO64
  }

  /** Conversion to `unsigned int`. */
  function Trunc32(x: nat): nat
  {
    x % TWO32
  }

  /** Unsigned division. */
  function Quotient(x: nat, d: nat): (q: nat)
    requires d > 0
    ensures q * d <= x < q * d + d
  {
    var q := x / d;
    assert x == d * q + x % d;
    q
  }

  /** Below zero, the difference wraps around once. */
  lemma Sub64Wraps(a: nat, b: nat)
    requires a < b < 0x1_0000_0000_0000_0000
    ensures Sub64(a, b) == a - b + 0x1_0000_0000_0000_0000
  {
  }

  lemma Sub64Exact(a: nat, b: nat)
    requires b <= a < TWO64
    ensures Sub64(a, b) == a - b
  {
  }
}
