/** The few facts about products and quotients of reals that the models need, over plain variables. */
module Arithmetic {

  lemma ProductSigns(x: real, y: real)
    ensures 0.0 <= x && 0.0 <= y ==> 0.0 <= x * y
    ensures x <= 0.0 && 0.0 <= y ==> x * y <= 0.0
    ensures x <= 0.0 && y <= 0.0 ==> 0.0 <= x * y
    ensures 0.0 < x && 0.0 < y ==> 0.0 < x * y
    ensures x < 0.0 && 0.0 < y ==> x * y < 0.0
    ensures x < 0.0 && y < 0.0 ==> 0.0 < x * y
  {
  }

  lemma Monotone(s: real, x: real, y: real)
    requires x <= y
    ensures 0.0 <= s ==> s * x <= s * y
    ensures s <= 0.0 ==> s * y <= s * x
  {
    Distributes(s, y, x);
    ProductSigns(s, y - x);
  }

  lemma StrictlyMonotone(s: real, x: real, y: real)
    requires x < y
    ensures 0.0 < s ==> s * x < s * y
    ensures s < 0.0 ==> s * y < s * x
  {
    Distributes(s, y, x);
    ProductSigns(s, y - x);
  }

  lemma Commutes(x: real, y: real)
    ensures x * y == y * x
  {
  }

  lemma Associates(x: real, y: real, z: real)
    ensures x * (y * z) == (x * y) * z
  {
  }

  lemma Distributes(s: real, x: real, y: real)
    ensures s * (x + y) == s * x + s * y
    ensures s * (x - y) == s * x - s * y
    ensures (x + y) * s == x * s + y * s
    ensures (x - y) * s == x * s - y * s
  {
  }

  lemma DistributesTo(s: real, x: real, y: real, sum: real)
    requires sum == x + y
    ensures s * sum == s * x + s * y
  {
  }

  lemma TimesTo(x: real, y: real, z: real)
    requires y == z
    ensures x * y == x * z
  {
  }

  lemma Negates(x: real, y: real)
    ensures (-x) * y == -(x * y)
  {
  }

  lemma TimesZero(x: real, y: real)
    requires y == 0.0
    ensures x * y == 0.0
  {
  }

  lemma DivideBack(x: real, y: real)
    requires y != 0.0
    ensures x / y * y == x
    ensures x * y / y == x
  {
  }

  lemma QuotientAdds(x: real, y: real, z: real)
    requires z != 0.0
    ensures (x + y) / z == x / z + y / z
  {
  }

  /** A quotient by a positive number lies on the same side of a bound as the numerator of its multiple. */
  lemma QuotientOrder(x: real, y: real, bound: real)
    requires 0.0 < y
    ensures x / y <= bound <==> x <= bound * y
    ensures bound <= x / y <==> bound * y <= x
    ensures x / y < bound <==> x < bound * y
    ensures bound < x / y <==> bound * y < x
  {
    DivideBack(x, y);
    Distributes(y, x / y, bound);
    ProductSigns(x / y - bound, y);
    ProductSigns(bound - x / y, y);
  }

  lemma SharedDivisor(x: real, y: real, n: real)
    requires 0.0 < n
    ensures x / n > y / n <==> x > y
  {
    DivideBack(x, n);
    DivideBack(y, n);
    Commutes(n, x / n);
    Commutes(n, y / n);
    if x / n > y / n { StrictlyMonotone(n, y / n, x / n); } else { Monotone(n, x / n, y / n); }
  }
}
