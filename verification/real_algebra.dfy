/** Laws of real arithmetic that statistics rest on.  Products have a name, so that proofs about loops
    can treat them as atoms and leave the algebra to the lemmas here. */
module RealAlgebra {
  function Times(x: real, y: real): real
  {
    x * y
  }

  function Square(x: real): real
  {
    x * x
  }

  lemma SquareNonNegative(x: real)
    ensures Square(x) >= 0.0
  {
  }

  lemma ProductPositive(x: real, y: real)
    requires x > 0.0 && y > 0.0
    ensures Times(x, y) > 0.0
  {
  }

  lemma SquarePositive(x: real)
    requires x != 0.0
    ensures Square(x) > 0.0
  {
    calc {
      Square(x);
      if x > 0.0 then Times(x, x) else Times(-x, -x);
    > { ProductPositive(if x > 0.0 then x else -x, if x > 0.0 then x else -x); }
      0.0;
    }
  }

  lemma SquareZero()
    ensures Square(0.0) == 0.0
  {
  }

  lemma ProductNonNegative(x: real, y: real)
    requires x >= 0.0 && y >= 0.0
    ensures Times(x, y) >= 0.0
  {
  }

  lemma TimesZero(x: real)
    ensures Times(x, 0.0) == 0.0 && Times(0.0, x) == 0.0
  {
  }

  lemma TimesOne(x: real)
    ensures Times(x, 1.0) == x && Times(1.0, x) == x
  {
  }

  lemma Distribute(a: real, x: real, y: real)
    ensures Times(a, x + y) == Times(a, x) + Times(a, y)
    ensures Times(x + y, a) == Times(x, a) + Times(y, a)
  {
  }

  lemma Commute(x: real, y: real)
    ensures Times(x, y) == Times(y, x)
  {
  }

  lemma Associate(x: real, y: real, z: real)
    ensures Times(Times(x, y), z) == Times(x, Times(y, z))
  {
  }

  lemma SquareOfSum(x: real, y: real)
    ensures Square(x + y) == Square(x) + 2.0 * Times(x, y) + Square(y)
  {
  }

  lemma SquareOfDifference(x: real, y: real)
    ensures Square(x - y) == Square(x) - 2.0 * Times(y, x) + Square(y)
  {
  }

  lemma SquareOfProduct(x: real, y: real)
    ensures Square(Times(x, y)) == Times(Square(x), Square(y))
  {
  }

  lemma Regroup(a: real, x: real, b: real, y: real)
    ensures Times(Times(a, x), Times(b, y)) == Times(Times(a, b), Times(x, y))
  {
  }

  lemma TimesIncreases(x: real, y: real, factor: real)
    requires x > y && factor > 0.0
    ensures Times(x, factor) > Times(y, factor)
  {
    assert (x - y) * factor > 0.0;
  }

  lemma SquareIncreases(x: real, y: real)
    requires x > y >= 0.0
    ensures Square(x) > Square(y)
  {
    assert Square(x) == Times(x, x) && Square(y) == Times(y, y);
    TimesIncreases(x, y, x);
    ProductNonNegative(x - y, y);
    Distribute(y, x, -y);
    Commute(x, y);
    assert Times(-y, y) == -Times(y, y);
    hide *;
  }

  /** If a square is at most another, so is what was squared, up to sign. */
  lemma SquareBounds(x: real, y: real)
    requires y >= 0.0 && Square(x) <= Square(y)
    ensures -y <= x <= y
  {
    assert Square(-x) == Square(x);
    hide *;
    if x > y {
      SquareIncreases(x, y);
    } else if -x > y {
      SquareIncreases(-x, y);
    }
  }

  lemma FactorNonNegative(factor: real, x: real)
    requires factor > 0.0 && Times(factor, x) >= 0.0
    ensures x >= 0.0
  {
    if x < 0.0 {
      TimesIncreases(0.0, x, factor);
      TimesZero(factor);
      Commute(factor, x);
      hide *;
    }
  }

  function Over(x: real, d: real): real
    requires d != 0.0
  {
    x / d
  }

  lemma Divide(x: real, d: real)
    requires d != 0.0
    ensures Times(Over(x, d), d) == x && Times(d, Over(x, d)) == x
  {
  }

  lemma OverSelf(d: real)
    requires d != 0.0
    ensures Over(d, d) == 1.0
  {
  }

  lemma Cancel(d: real, x: real, y: real)
    requires d != 0.0 && Times(d, x) == Times(d, y)
    ensures x == y
  {
    assert d * (x - y) == 0.0;
  }

  /** Quotients with the same cross products are equal. */
  lemma CrossQuotients(p: real, d: real, q: real, n: real)
    requires n != 0.0 && d != 0.0 && Times(n, p) == Times(d, q)
    ensures Over(p, d) == Over(q, n)
  {
    var a, b := Over(p, d), Over(q, n);
    Divide(p, d);
    Divide(q, n);
    Associate(n, d, a);
    Associate(n, d, b);
    Commute(n, d);
    Associate(d, n, b);
    assert Times(Times(n, d), a) == Times(n, p);
    assert Times(Times(d, n), b) == Times(d, q);
    assert Times(n, d) != 0.0;
    hide *;
    Cancel(Times(n, d), a, b);
  }

  lemma OverTimes(d: real, x: real)
    requires d != 0.0
    ensures Over(Times(d, x), d) == x
  {
    Divide(Times(d, x), d);
    hide *;
    Cancel(d, Over(Times(d, x), d), x);
  }

  lemma Negate(x: real, y: real)
    ensures Times(x, -y) == -Times(x, y) && Times(-y, x) == -Times(y, x)
  {
  }

  /** Numeric factors move out of a product. */
  lemma Multiples(x: real, y: real)
    ensures Times(x, 0.5 * y) == 0.5 * Times(x, y) && Times(x, 2.0 * y) == 2.0 * Times(x, y)
    ensures Times(x, 3.0 * y) == 3.0 * Times(x, y) && Times(x, 4.0 * y) == 4.0 * Times(x, y)
    ensures Times(2.0 * y, x) == 2.0 * Times(y, x)
  {
  }

  // --- Third and fourth powers ---

  function Cube(x: real): real
  {
    x * x * x
  }

  function Fourth(x: real): real
  {
    x * x * x * x
  }

  lemma PowersAsProducts(x: real)
    ensures Square(x) == Times(x, x)
    ensures Cube(x) == Times(x, Square(x)) == Times(Square(x), x)
    ensures Fourth(x) == Times(x, Cube(x)) == Times(Cube(x), x) == Square(Square(x)) == Times(Square(x), Square(x))
  {
  }

  lemma PowersOfProduct(x: real, y: real)
    ensures Square(Times(x, y)) == Times(Square(x), Square(y))
    ensures Cube(Times(x, y)) == Times(Cube(x), Cube(y))
    ensures Fourth(Times(x, y)) == Times(Fourth(x), Fourth(y))
  {
  }

  lemma CubeOfDifference(x: real, c: real)
    ensures Cube(x - c) == Cube(x) - 3.0 * Times(c, Square(x)) + 3.0 * Times(Square(c), x) - Cube(c)
  {
  }

  lemma FourthOfDifference(x: real, c: real)
    ensures Fourth(x - c) == Fourth(x) - 4.0 * Times(c, Cube(x)) + 6.0 * Times(Square(c), Square(x))
                             - 4.0 * Times(Cube(c), x) + Fourth(c)
  {
    PowersAsProducts(x - c);
    PowersAsProducts(x);
    PowersAsProducts(c);
    CubeOfDifference(x, c);
    var a, b, d := 3.0 * Times(c, Square(x)), 3.0 * Times(Square(c), x), Cube(c);
    DifferenceProducts(x, c);
    hide *;
    Distribute(Cube(x) - a + b - d, x, -c);
    Distribute(x, Cube(x) - a + b, -d);
    Distribute(x, Cube(x) - a, b);
    Distribute(x, Cube(x), -a);
    Distribute(c, Cube(x) - a + b, -d);
    Distribute(c, Cube(x) - a, b);
    Distribute(c, Cube(x), -a);
    Commute(x, Cube(x) - a + b - d);
    Commute(c, Cube(x) - a + b - d);
    Negate(x, d);
    Negate(x, a);
    Negate(c, d);
    Negate(c, a);
    Negate(Cube(x) - a + b - d, c);
    Multiples(x, Times(c, Square(x)));
    Multiples(x, Times(Square(c), x));
    Multiples(c, Times(c, Square(x)));
    Multiples(c, Times(Square(c), x));
  }

  lemma DifferenceProducts(x: real, c: real)
    ensures Times(x, Times(c, Square(x))) == Times(c, Cube(x))
    ensures Times(x, Times(Square(c), x)) == Times(Square(c), Square(x)) == Times(c, Times(c, Square(x)))
    ensures Times(x, Cube(c)) == Times(Cube(c), x) == Times(c, Times(Square(c), x))
  {
  }

  /** `sqrt` as far as it matters: the root that is not negative. */
  ghost predicate IsSqrt(sqrt: real -> real)
  {
    forall v: real :: v >= 0.0 ==> sqrt(v) >= 0.0 && Square(sqrt(v)) == v
  }
}
