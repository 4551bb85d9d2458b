/** Real-number vocabulary shared by the backtest modules.  `Times` names a product, so that proofs can
    hide it. */
module Reals {

  ghost predicate Positive(s: seq<real>) {
    forall i :: 0 <= i < |s| ==> s[i] > 0.0
  }

  function Times(c: real, x: real): real {
    c * x
  }

  lemma MulPositive(x: real, y: real)
    requires x > 0.0 && y > 0.0
    ensures x * y > 0.0
  {
  }

  lemma NonNegativeQuotient(x: real, n: real)
    requires x >= 0.0 && n > 0.0
    ensures x / n >= 0.0
  {
  }

  /** Multiplying by something positive keeps the order. */
  lemma TimesOrder(x: real, y: real, unit: real)
    requires unit > 0.0
    ensures x <= y <==> Times(x, unit) <= Times(y, unit)
    ensures x < y <==> Times(x, unit) < Times(y, unit)
  {
    var d := y - x;
    assert d * unit == y * unit - x * unit;
    if d > 0.0 { MulPositive(d, unit); }
    if d < 0.0 {
      MulPositive(-d, unit);
      assert -d * unit == -(d * unit);
    }
  }

  lemma TimesCancels(x: real, y: real, unit: real)
    requires unit != 0.0 && Times(x, unit) == Times(y, unit)
    ensures x == y
  {
    assert (x - y) * unit == 0.0;
  }
}
