/** Larger and smaller of two numbers, and rates applied to amounts. */
module Numbers {

  function Max(x: int, y: int): int {
    if x < y then y else x
  }

  function Min(x: int, y: int): int {
    if x < y then x else y
  }

  function MaxReal(x: real, y: real): real {
    if x < y then y else x
  }

  function MinReal(x: real, y: real): real {
    if x < y then x else y
  }

  function Clamp(x: real, low: real, high: real): (r: real)
    ensures low <= high ==> low <= r <= high
  {
    MinReal(high, MaxReal(low, x))
  }

  predicate UnitInterval(x: real) {
    0.0 <= x <= 1.0
  }

  /** A rate applied to an amount. */
  function Portion(amount: real, rate: real): real {
    amount * rate
  }

  lemma PortionSign(amount: real, rate: real)
    requires amount >= 0.0 && rate >= 0.0
    ensures Portion(amount, rate) >= 0.0
  {
  }

  lemma PortionMonotone(part: real, whole: real, rate: real)
    requires part <= whole && rate >= 0.0
    ensures Portion(part, rate) <= Portion(whole, rate)
  {
    assert 0.0 <= (whole - part) * rate;
  }

  lemma PortionOfLess(amount: real, less: real, more: real)
    requires less <= more && amount >= 0.0
    ensures Portion(amount, less) <= Portion(amount, more)
  {
    assert 0.0 <= amount * (more - less);
  }

  lemma PortionShrinks(amount: real, rate: real)
    requires amount >= 0.0 && UnitInterval(rate)
    ensures 0.0 <= Portion(amount, rate) <= amount
  {
    PortionOfLess(amount, rate, 1.0);
  }

  lemma PortionOfPart(part: real, whole: real, rate: real)
    requires 0.0 <= part <= whole && rate >= 0.0
    ensures 0.0 <= Portion(part, rate) <= Portion(whole, rate)
  {
    PortionSign(part, rate);
    PortionMonotone(part, whole, rate);
  }

  lemma PortionAdds(rate: real, x: real, y: real)
    ensures Portion(rate, x + y) == Portion(rate, x) + Portion(rate, y)
    ensures Portion(y, rate) == Portion(rate, y)
  {
  }
}
