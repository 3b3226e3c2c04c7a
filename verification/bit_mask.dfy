/** Bitwise rounding on unsigned words.

    The pool rounds sizes and offsets with `(x + a - 1) & ~(a - 1)`.  Words are modelled as natural
    numbers with a conjunction defined bit by bit, so that what the mask does to the number is proved
    rather than assumed. */
module BitMask {

  /** Largest `size_t`, all 64 bits set. */
  const SIZE_MAX: nat := 0xFFFF_FFFF_FFFF_FFFF

  function Pow2(k: nat): (p: nat)
    ensures p >= 1
  {
    if k == 0 then 1 else 2 * Pow2(k - 1)
  }

  /** All bits but the lowest, and the lowest one. */
  function Half(x: nat): nat
  {
    x / 2
  }

  function Bit(x: nat): nat
  {
    x % 2
  }

  /** Bitwise conjunction, from the least significant bit up. */
  function And(x: nat, y: nat): nat
    decreases x
  {
    HalfAndBit(x);
    if x == 0 || y == 0 then 0 else 2 * And(Half(x), Half(y)) + (if Bit(x) == 1 && Bit(y) == 1 then 1 else 0)
  }

  lemma HalfAndBit(x: nat)
    ensures x == 2 * Half(x) + Bit(x) && Bit(x) <= 1 && (x > 0 ==> Half(x) < x)
  {
  }

  lemma HalfOfDouble(h: nat)
    ensures Half(2 * h) == h && Bit(2 * h) == 0
    ensures h > 0 ==> Half(2 * h - 1) == h - 1 && Bit(2 * h - 1) == 1
  {
  }

  /** What is left of `x` above the last multiple of `a`. */
  function Rest(x: nat, a: nat): (r: nat)
    requires a >= 1
    ensures r < a
  {
    x % a
  }

  /** `(x + a - 1) & ~(a - 1)` on `size_t`; complementing a word takes it away from all ones. */
  function AlignUp(x: nat, a: nat): nat
    requires 1 <= a <= SIZE_MAX
  {
    And(x + a - 1, SIZE_MAX - (a - 1))
  }

  lemma RestOfDouble(x: nat, p: nat)
    requires p >= 1
    ensures Rest(x, 2 * p) == 2 * Rest(Half(x), p) + Bit(x)
  {
    var q, r := Half(x) / p, Rest(Half(x), p);
    assert Half(x) == p * q + r;
    HalfAndBit(x);
    assert 2 * (p * q) == q * (2 * p);
    DivModUnique(x, 2 * p, q, 2 * r + Bit(x));
  }

  /** Euclidean division is the only way to write `x` as a multiple of `d` plus a remainder. */
  lemma DivModUnique(x: int, d: int, q: int, r: int)
    requires d > 0 && 0 <= r < d && x == q * d + r
    ensures x / d == q && x % d == r
  {
    var q', r' := x / d, x % d;
    assert x == d * q' + r';
    SmallMultipleIsZero(q - q', d);
  }

  lemma SmallMultipleIsZero(k: int, d: int)
    requires d > 0
    ensures -d < k * d < d ==> k == 0
  {
    if k >= 1 {
      assert (k - 1) * d >= 0;
    } else if k <= -1 {
      assert (-k - 1) * d >= 0;
    }
  }

  lemma AndOfBits(x: nat, y: nat)
    ensures And(x, y) == if x == 0 || y == 0 then 0
                         else 2 * And(Half(x), Half(y)) + (if Bit(x) == 1 && Bit(y) == 1 then 1 else 0)
  {
    hide Half, Bit;
  }

  lemma AndOfZero(x: nat)
    ensures And(x, 0) == 0 && And(0, x) == 0
  {
  }

  /** Clearing the low `k` bits rounds down to a multiple of 2^k. */
  lemma {:induction false} MaskClearsLowBits(x: nat, k: nat, bits: nat)
    requires k <= bits && x < Pow2(bits)
    ensures Pow2(k) <= Pow2(bits)
    ensures And(x, Pow2(bits) - Pow2(k)) == x - Rest(x, Pow2(k))
    decreases bits
  {
    if k == 0 {
      Pow2Zero();
      RestOfOne(x);
      hide *;
      AndWithOnes(x, bits);
    } else {
      hide *;
      Pow2Step(bits - 1);
      Pow2Step(k - 1);
      HalfAndBit(x);
      MaskClearsLowBits(Half(x), k - 1, bits - 1);
      RestOfDouble(x, Pow2(k - 1));
      AndWithEven(x, Pow2(bits - 1) - Pow2(k - 1));
    }
  }

  lemma RestOfOne(x: nat)
    ensures Rest(x, 1) == 0
  {
  }

  lemma Pow2Zero()
    ensures Pow2(0) == 1
  {
  }

  lemma AndWithEven(x: nat, m: nat)
    ensures And(x, 2 * m) == 2 * And(Half(x), m)
  {
    hide *;
    AndOfBits(x, 2 * m);
    HalfOfDouble(m);
    HalfAndBit(x);
    AndOfZero(m);
    AndOfZero(Half(x));
  }

  lemma {:induction false} AndWithOnes(x: nat, bits: nat)
    requires x < Pow2(bits)
    ensures And(x, Pow2(bits) - 1) == x
  {
    hide *;
    if bits == 0 {
      Pow2Zero();
      AndOfZero(x);
    } else {
      Pow2Step(bits - 1);
      HalfAndBit(x);
      HalfOfDouble(Pow2(bits - 1));
      AndWithOnes(Half(x), bits - 1);
      AndOfBits(x, Pow2(bits) - 1);
    }
  }

  predicate IsMultiple(x: nat, a: nat)
    requires a >= 1
  {
    Rest(x, a) == 0
  }

  /** The mask trick is rounding up to the next multiple of a power of two: the result is a multiple,
      and it is the first one that is not below `x`. */
  lemma AlignUpRounds(x: nat, k: nat)
    requires k < 64 && x + Pow2(k) - 1 <= SIZE_MAX
    ensures Pow2(k) <= SIZE_MAX
    ensures IsMultiple(AlignUp(x, Pow2(k)), Pow2(k))
    ensures x <= AlignUp(x, Pow2(k)) < x + Pow2(k)
  {
    WordPowers();
    Pow2Monotone(k, 63);
    MaskRoundsUp(x, k, 64);
    hide Pow2, And, IsMultiple;
  }

  lemma MaskRoundsUp(x: nat, k: nat, bits: nat)
    requires k <= bits && x + Pow2(k) - 1 < Pow2(bits)
    ensures Pow2(k) <= Pow2(bits)
    ensures var r := And(x + Pow2(k) - 1, Pow2(bits) - Pow2(k));
            IsMultiple(r, Pow2(k)) && x <= r < x + Pow2(k)
  {
    hide *;
    var a, y := Pow2(k), x + Pow2(k) - 1;
    Pow2Monotone(k, bits);
    MaskClearsLowBits(y, k, bits);
    RoundedDown(y, a);
  }

  lemma RoundedDown(y: nat, a: nat)
    requires a >= 1
    ensures Rest(y, a) <= y && IsMultiple(y - Rest(y, a), a)
  {
    var q := y / a;
    assert y == a * q + y % a;
    assert a * q == q * a;
    assert q >= 0 && a * q >= 0;
    DivModUnique(y - y % a, a, q, 0);
  }

  /** Everything is a multiple of 1, and 0 is a multiple of everything. */
  /** No smaller multiple would do. */
  lemma AlignUpIsLeast(x: nat, k: nat, m: nat)
    requires k < 64 && x + Pow2(k) - 1 <= SIZE_MAX && x <= m && IsMultiple(m, Pow2(k))
    ensures Pow2(k) <= SIZE_MAX && AlignUp(x, Pow2(k)) <= m
  {
    AlignUpRounds(x, k);
    hide *;
    if m < AlignUp(x, Pow2(k)) {
      MultiplesApart(m, AlignUp(x, Pow2(k)), Pow2(k));
    }
  }

  lemma MultiplesApart(x: nat, y: nat, a: nat)
    requires a >= 1 && x < y && IsMultiple(x, a) && IsMultiple(y, a)
    ensures x + a <= y
  {
    hide IsMultiple;
    MultipleOf(x, a);
    MultipleOf(y, a);
    FactorsApart(x / a, y / a, a);
  }

  lemma MultipleOf(x: nat, a: nat)
    requires a >= 1 && IsMultiple(x, a)
    ensures x == a * (x / a)
  {
    assert x == a * (x / a) + x % a;
  }

  lemma FactorsApart(i: nat, j: nat, a: nat)
    requires a * i < a * j
    ensures a * i + a <= a * j
  {
    if i < j {
      ProductsGrow(i + 1, j, a);
    } else {
      ProductsGrow(j, i, a);
    }
  }

  lemma ProductsGrow(i: nat, j: nat, a: nat)
    requires i <= j
    ensures a * i <= a * j
  {
  }

  lemma TrivialMultiples(x: nat, a: nat)
    requires a >= 1
    ensures IsMultiple(x, 1) && IsMultiple(0, a)
  {
    DivModUnique(0, a, 0, 0);
  }

  lemma WordPowers()
    ensures Pow2(63) == 0x8000_0000_0000_0000 && Pow2(64) == SIZE_MAX + 1
  {
    assert Pow2(0) == 1;
    hide Pow2;
    Pow2By8(0, 8);
    Pow2By8(8, 16);
    Pow2By8(16, 24);
    Pow2By8(24, 32);
    Pow2By8(32, 40);
    Pow2By8(40, 48);
    Pow2By8(48, 56);
    Pow2By8(56, 64);
    Pow2Step(63);
  }

  lemma Pow2Step(k: nat)
    ensures Pow2(k + 1) == 2 * Pow2(k)
  {
  }

  lemma SixtyFour()
    ensures Pow2(6) == 64
  {
  }

  lemma Pow2By8(k: nat, m: nat)
    requires m == k + 8
    ensures Pow2(m) == 256 * Pow2(k)
  {
    Pow2By4(k, k + 4);
    Pow2By4(k + 4, m);
    hide Pow2;
  }

  lemma Pow2By4(k: nat, m: nat)
    requires m == k + 4
    ensures Pow2(m) == 16 * Pow2(k)
  {
    hide *;
    Pow2Step(k);
    Pow2Step(k + 1);
    Pow2Step(k + 2);
    Pow2Step(k + 3);
    assert k + 1 + 1 == k + 2 && k + 2 + 1 == k + 3 && k + 3 + 1 == m;
  }

  lemma {:induction false} Pow2Monotone(i: nat, j: nat)
    requires i <= j
    ensures Pow2(i) <= Pow2(j)
    decreases j
  {
    if i < j {
      Pow2Monotone(i, j - 1);
    }
  }
}
