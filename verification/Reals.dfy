/** Exact real arithmetic that the solver should take in small steps. */
module Reals {

  function Min(x: real, y: real): real { if x <= y then x else y }

  function Max(x: real, y: real): real { if x >= y then x else y }

  function Distance(x: real, y: real): real { if x <= y then y - x else x - y }

  /** Multiplication under a name, so that equal factors give equal products without reasoning about either. */
  function Times(x: real, y: real): real { x * y }

  lemma TimesMono(x: real, x': real, y: real, y': real)
    requires 0.0 <= x <= x' && 0.0 <= y <= y'
    ensures 0.0 <= Times(x, y) <= Times(x', y')
  {
    assert x * y <= x' * y;
    assert x' * y <= x' * y';
  }

  lemma TimesUnit(x: real)
    ensures Times(x, 1.0) == x == Times(1.0, x)
  {
  }

  lemma TimesSwap(x: real, y: real, z: real)
    ensures Times(x, Times(y, z)) == Times(y, Times(x, z)) == Times(Times(x, y), z)
  {
  }

  lemma TimesSplit(x: real, y: real, z: real)
    ensures Times(x + y, z) == Times(x, z) + Times(y, z)
  {
  }

  lemma PositiveTimes(x: real, y: real)
    requires x > 0.0 && y > 0.0
    ensures Times(x, y) > 0.0
  {
    assert x * y > 0.0;
  }

  lemma TimesCommutes(x: real, y: real)
    ensures Times(x, y) == Times(y, x)
  {
  }

  lemma TimesZero(x: real)
    ensures Times(0.0, x) == 0.0 == Times(x, 0.0)
  {
  }
}
