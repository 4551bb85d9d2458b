/** The indicator calculations, over `real` instead of floats, for periods of at least one day.

    `math.sqrt` is not modelled.  A Bollinger band is kept as its centre and variance, and a
    comparison with `a` times the deviation is decided without the root (`RootAtLeast`). */
module Indicators {
  import opened Reals

  /** What a calculation gives: nothing yet (`None`), a `ZeroDivisionError`, or a value. */
  datatype Reading<+T> = NotReady | DivisionByZero | Value(v: T)

  function Sum(s: seq<real>): real {
    if s == [] then 0.0 else Sum(s[..|s| - 1]) + s[|s| - 1]
  }

  /** Python's `s[-n:]` for a positive n. */
  function Last(s: seq<real>, n: nat): seq<real> {
    if n >= |s| then s else s[|s| - n..]
  }

  function Mean(s: seq<real>, n: nat): real
    requires n > 0
  {
    Sum(s) / n as real
  }

  function Changes(data: seq<real>): seq<real> {
    if |data| == 0 then [] else seq(|data| - 1, i requires 0 <= i < |data| - 1 => data[i + 1] - data[i])
  }

  function Rise(x: real): real { if x > 0.0 then x else 0.0 }
  function Fall(x: real): real { if x < 0.0 then -x else 0.0 }

  function Rises(s: seq<real>): seq<real> { seq(|s|, i requires 0 <= i < |s| => Rise(s[i])) }
  function Falls(s: seq<real>): seq<real> { seq(|s|, i requires 0 <= i < |s| => Fall(s[i])) }

  function Rsi(data: seq<real>, period: nat): Reading<real>
    requires period > 0
  {
    if |data| <= period then NotReady
    else
      var recent := Last(Changes(data), period);
      var gain, loss := Mean(Rises(recent), period), Mean(Falls(recent), period);
      RelativeStrength(gain, loss)
  }

  function RelativeStrength(gain: real, loss: real): Reading<real> {
    if loss == 0.0 then Value(100.0)
    else if gain == 0.0 then Value(0.0)
    else if 1.0 + gain / loss == 0.0 then DivisionByZero
    else Value(100.0 - 100.0 / (1.0 + gain / loss))
  }

  function Bias(data: seq<real>, period: nat): Reading<real>
    requires period > 0
  {
    if |data| < period then NotReady
    else
      var ma := Mean(Last(data, period), period);
      if ma == 0.0 then DivisionByZero else Value((data[|data| - 1] - ma) / ma * 100.0)
  }

  /** A band: its centre, and the variance whose root is the deviation. */
  datatype Band = Band(sma: real, variance: real)

  function Squares(s: seq<real>, centre: real): seq<real> {
    seq(|s|, i requires 0 <= i < |s| => (s[i] - centre) * (s[i] - centre))
  }

  function Bollinger(data: seq<real>, period: nat): Reading<Band>
    requires period > 0
  {
    if |data| < period then NotReady
    else
      var window := Last(data, period);
      var sma := Mean(window, period);
      Value(Band(sma, Mean(Squares(window, sma), period)))
  }

  /** a * sqrt(variance) >= b, without the root. */
  predicate RootAtLeast(a: real, variance: real, b: real) {
    if a >= 0.0 then b <= 0.0 || a * a * variance >= b * b
    else b <= 0.0 && a * a * variance <= b * b
  }

  function Highest(s: seq<real>): real
    requires s != []
  {
    if |s| == 1 then s[0] else var m := Highest(s[..|s| - 1]); if s[|s| - 1] > m then s[|s| - 1] else m
  }

  function Lowest(s: seq<real>): real
    requires s != []
  {
    if |s| == 1 then s[0] else var m := Lowest(s[..|s| - 1]); if s[|s| - 1] < m then s[|s| - 1] else m
  }

  /** K and D with the closes standing in for highs and lows, as the strategy calls it. */
  function Kd(closes: seq<real>, period: nat): Reading<(real, real)>
    requires period > 0
  {
    if |closes| < period then NotReady
    else
      var window := Last(closes, period);
      var hi, lo := Highest(window), Lowest(window);
      Value(if hi == lo then (50.0, 50.0) else KAndD(closes[|closes| - 1] - lo, hi - lo))
  }

  function KAndD(at: real, width: real): (real, real)
    requires width != 0.0
  {
    var k := at / width * 100.0;
    (k, k * 2.0 / 3.0 + 50.0 / 3.0)
  }

  /** Fast mean minus slow mean. */
  function Spread(data: seq<real>, fast: nat, slow: nat): real
    requires fast > 0 && slow > 0
  {
    Mean(Last(data, fast), fast) - Mean(Last(data, slow), slow)
  }

  /** The MACD line now and nine days ago. */
  function Macd(data: seq<real>, fast: nat, slow: nat): Reading<(real, real)>
    requires fast > 0 && slow > 0
  {
    if |data| < slow + 9 then NotReady
    else
      var prev := data[..|data| - 9];
      Value((Spread(data, fast, slow), Spread(prev, fast, slow)))
  }

  // ----- the root-free comparison

  lemma SquareOrder(x: real, y: real)
    requires x >= 0.0 && y >= 0.0
    ensures x >= y <==> x * x >= y * y
  {
    if x < y {
      MulPositive(y - x, y + x);
      assert (y - x) * (y + x) == y * y - x * x;
    } else {
      assert (x - y) * (x + y) >= 0.0;
      assert (x - y) * (x + y) == x * x - y * y;
    }
  }

  /** Whatever non-negative root of the variance is used, the root-free comparison agrees with it. */
  lemma RootAtLeastAgrees(a: real, variance: real, b: real, root: real)
    requires root >= 0.0 && root * root == variance
    ensures RootAtLeast(a, variance, b) <==> a * root >= b
  {
    var x := a * root;
    assert x * x == a * a * variance by {
      assert x * x == a * a * (root * root);
    }
    if a >= 0.0 {
      assert x >= 0.0;
      if b > 0.0 { SquareOrder(x, b); }
    } else {
      assert x <= 0.0;
      if b <= 0.0 { assert (-x) * (-x) == x * x && (-b) * (-b) == b * b; SquareOrder(-b, -x); }
    }
  }

  // ----- multiplying every price by the same positive constant

  function Scale(c: real, s: seq<real>): (r: seq<real>)
    ensures |r| == |s| && forall i :: 0 <= i < |s| ==> r[i] == Times(c, s[i])
  {
    seq(|s|, i requires 0 <= i < |s| => Times(c, s[i]))
  }

  lemma ScaleSlice(c: real, s: seq<real>, from: nat, to: nat)
    requires from <= to <= |s|
    ensures Scale(c, s)[from..to] == Scale(c, s[from..to])
  {
    assert forall i :: 0 <= i < to - from ==> s[from..to][i] == s[from + i];
    assert Scale(c, s)[from..to] == Scale(c, s[from..to]);
  }

  lemma ScaleLast(c: real, s: seq<real>, n: nat)
    ensures Last(Scale(c, s), n) == Scale(c, Last(s, n))
  {
    hide Times;
    if n < |s| {
      ScaleSlice(c, s, |s| - n, |s|);
      assert Last(s, n) == s[|s| - n..|s|] && Last(Scale(c, s), n) == Scale(c, s)[|s| - n..|s|];
    }
  }

  lemma {:induction false} ScaleSum(c: real, s: seq<real>)
    ensures Sum(Scale(c, s)) == Times(c, Sum(s))
  {
    if s != [] {
      var n := |s| - 1;
      ScaleSlice(c, s, 0, n);
      ScaleSum(c, s[..n]);
      TimesOfDifference(c, Sum(s), s[n]);
    }
  }

  lemma ScaleMean(c: real, s: seq<real>, n: nat)
    requires n > 0
    ensures Mean(Scale(c, s), n) == Times(c, Mean(s, n))
  {
    ScaleSum(c, s);
    ProductOverQuotient(c, Sum(s), n as real);
  }

  lemma ProductOverQuotient(c: real, x: real, n: real)
    requires n > 0.0
    ensures Times(c, x) / n == Times(c, x / n)
  {
    var q := x / n;
    assert q * n == x;
    QuotientUnique(c * x, c * q, n);
  }

  lemma QuotientUnique(x: real, q: real, n: real)
    requires n != 0.0 && q * n == x
    ensures x / n == q
  {
    var p := x / n;
    assert p * n == x;
    assert (p - q) * n == 0.0;
  }

  lemma RatioIgnoresScale(c: real, x: real, y: real)
    requires c > 0.0
    ensures Times(c, y) == 0.0 <==> y == 0.0
    ensures Times(c, x) == 0.0 <==> x == 0.0
    ensures y != 0.0 ==> Times(c, x) / Times(c, y) == x / y
  {
    OrderIgnoresScale(c, y, 0.0);
    OrderIgnoresScale(c, x, 0.0);
    if y != 0.0 {
      var q := x / y;
      assert q * y == x;
      assert q * (c * y) == c * (q * y);
      QuotientUnique(c * x, q, c * y);
    }
  }

  lemma OrderIgnoresScale(c: real, x: real, y: real)
    requires c > 0.0
    ensures Times(c, x) > Times(c, y) <==> x > y
    ensures Times(c, x) == Times(c, y) <==> x == y
  {
    assert Times(c, x) - Times(c, y) == c * (x - y);
    if x > y { MulPositive(c, x - y); } else if x < y { MulPositive(c, y - x); }
  }

  lemma ScaleChanges(c: real, data: seq<real>)
    ensures Changes(Scale(c, data)) == Scale(c, Changes(data))
  {
    var left, right := Changes(Scale(c, data)), Scale(c, Changes(data));
    forall i | 0 <= i < |left| ensures left[i] == right[i] {
      TimesOfDifference(c, data[i + 1], data[i]);
    }
    assert left == right;
  }

  lemma TimesOfDifference(c: real, x: real, y: real)
    ensures Times(c, x) - Times(c, y) == Times(c, x - y)
  {
  }

  lemma ScaleRisesFalls(c: real, s: seq<real>)
    requires c > 0.0
    ensures Rises(Scale(c, s)) == Scale(c, Rises(s))
    ensures Falls(Scale(c, s)) == Scale(c, Falls(s))
  {
    forall x: real ensures Rise(Times(c, x)) == Times(c, Rise(x)) && Fall(Times(c, x)) == Times(c, Fall(x)) {
      OrderIgnoresScale(c, x, 0.0);
      TimesOfDifference(c, 0.0, x);
    }
    assert Rises(Scale(c, s)) == Scale(c, Rises(s));
    assert Falls(Scale(c, s)) == Scale(c, Falls(s));
  }

  lemma RsiIgnoresScale(c: real, data: seq<real>, period: nat)
    requires c > 0.0 && period > 0
    ensures Rsi(Scale(c, data), period) == Rsi(data, period)
  {
    if |data| > period {
      var recent := Last(Changes(data), period);
      ScaleChanges(c, data);
      ScaleLast(c, Changes(data), period);
      ScaleRisesFalls(c, recent);
      ScaleMean(c, Rises(recent), period);
      ScaleMean(c, Falls(recent), period);
      RatioIgnoresScale(c, Mean(Rises(recent), period), Mean(Falls(recent), period));
    }
  }

  lemma BiasIgnoresScale(c: real, data: seq<real>, period: nat)
    requires c > 0.0 && period > 0
    ensures Bias(Scale(c, data), period) == Bias(data, period)
  {
    if |data| >= period {
      ScaleLast(c, data, period);
      ScaleMean(c, Last(data, period), period);
      var ma, x := Mean(Last(data, period), period), data[|data| - 1];
      TimesOfDifference(c, x, ma);
      RatioIgnoresScale(c, x - ma, ma);
    }
  }

  /** Multiplying by the square of c, kept as two steps. */
  function Twice(c: real, x: real): real {
    Times(c, Times(c, x))
  }

  lemma SquareOfTimes(c: real, d: real)
    ensures Times(c, d) * Times(c, d) == Twice(c, d * d)
  {
    assert (c * d) * (c * d) == c * (d * (c * d)) == c * (c * (d * d));
  }

  lemma ScaleSquares(c: real, s: seq<real>, centre: real)
    ensures Squares(Scale(c, s), Times(c, centre)) == Scale(c, Scale(c, Squares(s, centre)))
  {
    var left, right := Squares(Scale(c, s), Times(c, centre)), Scale(c, Scale(c, Squares(s, centre)));
    forall i | 0 <= i < |s| ensures left[i] == right[i] {
      TimesOfDifference(c, s[i], centre);
      SquareOfTimes(c, s[i] - centre);
      assert left[i] == Times(c, s[i] - centre) * Times(c, s[i] - centre);
    }
    assert left == right;
  }

  /** A band scales with its centre linearly and its variance quadratically. */
  lemma ScaleBollinger(c: real, data: seq<real>, period: nat)
    requires period > 0
    ensures var b := Bollinger(data, period);
            Bollinger(Scale(c, data), period)
            == if b.Value? then Value(Band(Times(c, b.v.sma), Twice(c, b.v.variance))) else b
  {
    if |data| >= period {
      var window := Last(data, period);
      var sma := Mean(window, period);
      ScaleLast(c, data, period);
      ScaleMean(c, window, period);
      ScaleSquares(c, window, sma);
      ScaleMean(c, Scale(c, Squares(window, sma)), period);
      ScaleMean(c, Squares(window, sma), period);
    }
  }

  lemma RootAtLeastIgnoresScale(c: real, a: real, variance: real, b: real)
    requires c > 0.0
    ensures RootAtLeast(a, Twice(c, variance), Times(c, b)) <==> RootAtLeast(a, variance, b)
  {
    var x, y := a * a * variance, b * b;
    assert a * a * Twice(c, variance) == Twice(c, x) by {
      assert a * a * (c * (c * variance)) == c * (a * a * (c * variance)) == c * (c * (a * a * variance));
    }
    SquareOfTimes(c, b);
    OrderIgnoresScale(c, Times(c, x), Times(c, y));
    OrderIgnoresScale(c, x, y);
    OrderIgnoresScale(c, b, 0.0);
  }

  lemma {:induction false} ScaleExtremes(c: real, s: seq<real>)
    requires c > 0.0 && s != []
    ensures Highest(Scale(c, s)) == Times(c, Highest(s)) && Lowest(Scale(c, s)) == Times(c, Lowest(s))
  {
    var n := |s| - 1;
    if n > 0 {
      ScaleSlice(c, s, 0, n);
      ScaleExtremes(c, s[..n]);
      OrderIgnoresScale(c, s[n], Highest(s[..n]));
      OrderIgnoresScale(c, Lowest(s[..n]), s[n]);
    }
  }

  lemma KdIgnoresScale(c: real, closes: seq<real>, period: nat)
    requires c > 0.0 && period > 0
    ensures Kd(Scale(c, closes), period) == Kd(closes, period)
  {
    if |closes| >= period {
      var window := Last(closes, period);
      ScaleLast(c, closes, period);
      ScaleExtremes(c, window);
      var hi, lo, x := Highest(window), Lowest(window), closes[|closes| - 1];
      OrderIgnoresScale(c, hi, lo);
      TimesOfDifference(c, x, lo);
      TimesOfDifference(c, hi, lo);
      RatioIgnoresScale(c, x - lo, hi - lo);
    }
  }

  lemma ScaleSpread(c: real, data: seq<real>, fast: nat, slow: nat)
    requires fast > 0 && slow > 0
    ensures Spread(Scale(c, data), fast, slow) == Times(c, Spread(data, fast, slow))
  {
    ScaleLast(c, data, fast);
    ScaleLast(c, data, slow);
    ScaleMean(c, Last(data, fast), fast);
    ScaleMean(c, Last(data, slow), slow);
    TimesOfDifference(c, Mean(Last(data, fast), fast), Mean(Last(data, slow), slow));
  }

  lemma ScaleMacd(c: real, data: seq<real>, fast: nat, slow: nat)
    requires fast > 0 && slow > 0
    ensures var m := Macd(data, fast, slow);
            Macd(Scale(c, data), fast, slow) == if m.Value? then Value((Times(c, m.v.0), Times(c, m.v.1))) else m
  {
    hide Spread, Scale;
    if |data| >= slow + 9 {
      var prev := data[..|data| - 9];
      assert Scale(c, data)[..|data| - 9] == Scale(c, prev) by { ScaleSlice(c, data, 0, |data| - 9); }
      var now, before := Spread(data, fast, slow), Spread(prev, fast, slow);
      assert Spread(Scale(c, data), fast, slow) == Times(c, now) by { ScaleSpread(c, data, fast, slow); }
      assert Spread(Scale(c, prev), fast, slow) == Times(c, before) by { ScaleSpread(c, prev, fast, slow); }
    }
  }

  // ----- positive prices never divide by zero

  lemma SumOfPositive(s: seq<real>)
    requires Positive(s)
    ensures Sum(s) >= 0.0 && (s != [] ==> Sum(s) > 0.0)
  {
    if s != [] { SumOfPositive(s[..|s| - 1]); }
  }

  lemma SumOfNonNegative(s: seq<real>)
    requires forall i :: 0 <= i < |s| ==> s[i] >= 0.0
    ensures Sum(s) >= 0.0
  {
    if s != [] { SumOfNonNegative(s[..|s| - 1]); }
  }

  lemma BiasIsDefined(data: seq<real>, period: nat)
    requires Positive(data) && period > 0
    ensures !Bias(data, period).DivisionByZero?
  {
    if |data| >= period {
      var window := Last(data, period);
      SumOfPositive(window);
      assert Mean(window, period) * period as real == Sum(window);
    }
  }

  /** The RSI never divides by zero, on any prices, and stays between 0 and 100. */
  lemma RsiIsDefined(data: seq<real>, period: nat)
    requires period > 0
    ensures var r := Rsi(data, period);
            !r.DivisionByZero? && (r.Value? ==> 0.0 <= r.v <= 100.0)
  {
    if |data| > period {
      var recent := Last(Changes(data), period);
      var rises, falls := Rises(recent), Falls(recent);
      var gain, loss := Mean(rises, period), Mean(falls, period);
      assert gain >= 0.0 && loss >= 0.0 by {
        SumOfNonNegative(rises);
        SumOfNonNegative(falls);
        NonNegativeQuotient(Sum(rises), period as real);
        NonNegativeQuotient(Sum(falls), period as real);
      }
      hide Mean, Rises, Falls, Changes, Last;
      if loss != 0.0 { RelativeStrengthBounds(gain, loss); }
    }
  }

  lemma RelativeStrengthBounds(gain: real, loss: real)
    requires gain >= 0.0 && loss > 0.0
    ensures 1.0 + gain / loss != 0.0
    ensures 0.0 <= 100.0 - 100.0 / (1.0 + gain / loss) <= 100.0
  {
    NonNegativeQuotient(gain, loss);
    var d := 1.0 + gain / loss;
    var q := 100.0 / d;
    assert q * d == 100.0;
    NonNegativeQuotient(100.0, d);
    assert q * (d - 1.0) >= 0.0;
    assert q * (d - 1.0) == q * d - q;
  }
}
