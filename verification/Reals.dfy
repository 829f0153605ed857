/**
 Products of reals, named so that proofs can treat them one at a time.
 */
module Reals {
  function Times(a: real, b: real): real {
    a * b
  }

  lemma TimesMono(a: real, x: real, y: real)
    requires a >= 0.0 && x <= y
    ensures Times(a, x) <= Times(a, y)
  {
    assert a * (y - x) >= 0.0;
  }

  lemma TimesOne(a: real)
    ensures Times(a, 1.0) == a && Times(1.0, a) == a && Times(a, 0.0) == 0.0 && Times(0.0, a) == 0.0
  {
  }

  lemma TimesSwap(a: real, b: real)
    ensures Times(a, b) == Times(b, a)
  {
  }

  lemma TimesPositive(a: real, b: real)
    requires a > 0.0 && b > 0.0
    ensures Times(a, b) > 0.0
  {
  }

  lemma TimesAdds(a: real, x: real, y: real)
    ensures Times(a, x + y) == Times(a, x) + Times(a, y)
  {
  }

  lemma TimesAssociates(a: real, b: real, c: real)
    ensures Times(a, Times(b, c)) == Times(Times(a, b), c)
  {
  }

  lemma Quotient(x: real, y: real)
    requires y > 0.0
    ensures Times(x / y, y) == x && Times(y, x / y) == x
    ensures x >= 0.0 ==> x / y >= 0.0
    ensures x > 0.0 ==> x / y > 0.0
  {
  }
}
