/** What every signal means in terms of the prices: sums over day indices, fractions cleared, votes counted as
    sets.  The readings are given by relations that the values used by the code satisfy, and by no other value. */
module SignalMeaning {
  import opened Indicators
  import opened Reals
  import opened Strategies

  // ----- the prices of a window

  /** closes[from] + ... + closes[to - 1] */
  function Total(closes: seq<real>, from: nat, to: nat): real
    requires from <= to <= |closes|
  {
    if from == to then 0.0 else Total(closes, from, to - 1) + closes[to - 1]
  }

  /** How far the closes rose, added up over the days from..to. */
  function Climb(closes: seq<real>, from: nat, to: nat): real
    requires 1 <= from <= to <= |closes|
  {
    if from == to then 0.0
    else
      var up := closes[to - 1] - closes[to - 2];
      Climb(closes, from, to - 1) + if up > 0.0 then up else 0.0
  }

  /** How far they fell. */
  function Slide(closes: seq<real>, from: nat, to: nat): real
    requires 1 <= from <= to <= |closes|
  {
    if from == to then 0.0
    else
      var down := closes[to - 2] - closes[to - 1];
      Slide(closes, from, to - 1) + if down > 0.0 then down else 0.0
  }

  /** The squared distances from `centre`, added up. */
  function Scatter(closes: seq<real>, from: nat, to: nat, centre: real): real
    requires from <= to <= |closes|
  {
    if from == to then 0.0
    else
      var d := closes[to - 1] - centre;
      Scatter(closes, from, to - 1, centre) + d * d
  }

  /** The first day of the window of the last `n` closes. */
  function Start(closes: seq<real>, n: nat): nat {
    if n <= |closes| then |closes| - n else 0
  }

  lemma {:induction false} SumIsTotal(closes: seq<real>, from: nat, to: nat)
    requires from <= to <= |closes|
    ensures Sum(closes[from..to]) == Total(closes, from, to)
  {
    if from < to {
      SumIsTotal(closes, from, to - 1);
      assert closes[from..to][..to - from - 1] == closes[from..to - 1];
    }
  }

  lemma SumOfLast(closes: seq<real>, n: nat)
    ensures Sum(Last(closes, n)) == Total(closes, Start(closes, n), |closes|)
  {
    SumIsTotal(closes, Start(closes, n), |closes|);
    assert Last(closes, n) == closes[Start(closes, n)..|closes|];
  }

  lemma RisesOfPrefix(s: seq<real>, n: nat)
    requires n <= |s|
    ensures |Rises(s)| == |Falls(s)| == |s|
    ensures Rises(s)[..n] == Rises(s[..n]) && Falls(s)[..n] == Falls(s[..n])
  {
  }

  lemma {:induction false} RisesAreClimb(closes: seq<real>, from: nat, to: nat)
    requires 1 <= from <= to <= |closes| == |Changes(closes)| + 1
    ensures Sum(Rises(Changes(closes)[from - 1..to - 1])) == Climb(closes, from, to)
  {
    hide Changes, Rises;
    if from == to {
      assert |Rises([])| == 0 by { RisesOfPrefix([], 0); }
    } else {
      RisesAreClimb(closes, from, to - 1);
      OneMoreChange(closes, from, to);
    }
  }

  lemma {:induction false} FallsAreSlide(closes: seq<real>, from: nat, to: nat)
    requires 1 <= from <= to <= |closes| == |Changes(closes)| + 1
    ensures Sum(Falls(Changes(closes)[from - 1..to - 1])) == Slide(closes, from, to)
  {
    hide Changes, Falls;
    if from == to {
      assert |Falls([])| == 0 by { RisesOfPrefix([], 0); }
    } else {
      FallsAreSlide(closes, from, to - 1);
      OneMoreChange(closes, from, to);
    }
  }

  lemma OneMoreChange(closes: seq<real>, from: nat, to: nat)
    requires 1 <= from < to <= |closes| == |Changes(closes)| + 1
    ensures var window, n := Changes(closes)[from - 1..to - 1], to - from - 1;
            var before := Changes(closes)[from - 1..to - 2];
            var up := closes[to - 1] - closes[to - 2];
            && |Rises(window)| == |Falls(window)| == n + 1
            && Rises(window)[..n] == Rises(before) && Falls(window)[..n] == Falls(before)
            && Rises(window)[n] == (if up > 0.0 then up else 0.0)
            && Falls(window)[n] == (if up < 0.0 then -up else 0.0)
  {
    var window, n := Changes(closes)[from - 1..to - 1], to - from - 1;
    assert window[..n] == Changes(closes)[from - 1..to - 2];
    assert window[n] == closes[to - 1] - closes[to - 2];
    RisesOfPrefix(window, n);
  }

  lemma SquaresOfPrefix(s: seq<real>, n: nat, centre: real)
    requires n <= |s|
    ensures Squares(s, centre)[..n] == Squares(s[..n], centre)
  {
    forall i | 0 <= i < n ensures Squares(s, centre)[i] == Squares(s[..n], centre)[i] {
      assert s[..n][i] == s[i];
    }
  }

  lemma {:induction false} SquaresAreScatter(closes: seq<real>, from: nat, to: nat, centre: real)
    requires from <= to <= |closes|
    ensures Sum(Squares(closes[from..to], centre)) == Scatter(closes, from, to, centre)
  {
    if from < to {
      var window, n := closes[from..to], to - from - 1;
      SquaresAreScatter(closes, from, to - 1, centre);
      assert window[..n] == closes[from..to - 1];
      SquaresOfPrefix(window, n, centre);
      assert Squares(window, centre)[n] == (closes[to - 1] - centre) * (closes[to - 1] - centre);
      hide Squares;
    }
  }

  // ----- RSI

  /** `v` is the RSI over the last `period` changes: 100 times what they rose over what they moved, and 100 when
      nothing fell. */
  ghost predicate IsRsi(closes: seq<real>, period: nat, v: real)
    requires 0 < period < |closes|
  {
    var n := |closes|;
    var up, down := Climb(closes, n - period, n), Slide(closes, n - period, n);
    if down == 0.0 then v == 100.0 else Times(v, up + down) == 100.0 * up
  }

  lemma {:induction false} MovesAreNonNegative(closes: seq<real>, from: nat, to: nat)
    requires 1 <= from <= to <= |closes|
    ensures Climb(closes, from, to) >= 0.0 && Slide(closes, from, to) >= 0.0
  {
    if from < to { MovesAreNonNegative(closes, from, to - 1); }
  }

  lemma RsiOfParts(gain: real, loss: real, n: real, up: real, down: real)
    requires gain >= 0.0 && loss >= 0.0 && n > 0.0 && Times(gain, n) == up && Times(loss, n) == down
    requires loss == 0.0 <==> down == 0.0
    ensures var r := RelativeStrength(gain, loss);
            r.Value? && if down == 0.0 then r.v == 100.0 else Times(r.v, up + down) == 100.0 * up
  {
    if loss > 0.0 {
      StrengthOfParts(gain, loss);
      var v := RelativeStrength(gain, loss).v;
      hide RelativeStrength;
      MultiplyThrough(v, loss + gain, 100.0 * gain, n);
      assert (loss + gain) * n == up + down && 100.0 * gain * n == 100.0 * up;
    }
  }

  lemma MultiplyThrough(v: real, x: real, y: real, n: real)
    requires v * x == y
    ensures v * (x * n) == y * n
  {
    assert v * (x * n) == v * x * n;
  }

  lemma StrengthOfParts(gain: real, loss: real)
    requires gain >= 0.0 && loss > 0.0
    ensures var r := RelativeStrength(gain, loss); r.Value? && r.v * (loss + gain) == 100.0 * gain
  {
    var x := gain / loss;
    assert x * loss == gain && x >= 0.0;
    if gain != 0.0 {
      var d := 1.0 + x;
      var q := 100.0 / d;
      assert q * d == 100.0;
      Clear(100.0 - q, d, loss, gain);
    }
  }

  lemma Clear(v: real, d: real, loss: real, gain: real)
    requires v * d == 100.0 * d - 100.0 && d * loss == loss + gain
    ensures v * (loss + gain) == 100.0 * gain
  {
    assert v * (d * loss) == v * d * loss == (100.0 * d - 100.0) * loss;
  }

  lemma MeanTimes(s: seq<real>, n: nat)
    requires n > 0
    ensures Times(Mean(s, n), n as real) == Sum(s)
    ensures Sum(s) >= 0.0 ==> Mean(s, n) >= 0.0
    ensures Mean(s, n) == 0.0 <==> Sum(s) == 0.0
  {
    hide Sum;
    MeanOfSum(Sum(s), n as real);
  }

  lemma MeanOfSum(x: real, n: real)
    requires n > 0.0
    ensures Times(x / n, n) == x && (x >= 0.0 ==> x / n >= 0.0) && (x / n == 0.0 <==> x == 0.0)
  {
  }

  /** The reading the code computes is the RSI. */
  lemma RsiIsRead(closes: seq<real>, period: nat)
    requires 0 < period < |closes|
    ensures var r := Rsi(closes, period); r.Value? && IsRsi(closes, period, r.v)
  {
    var n := |closes|;
    var up, down := Climb(closes, n - period, n), Slide(closes, n - period, n);
    var gain, loss := RsiMeansOf(closes, period);
    MovesAreNonNegative(closes, n - period, n);
    hide Rsi, Climb, Slide, RelativeStrength, Times;
    RsiOfParts(gain, loss, period as real, up, down);
  }

  lemma RsiMeansOf(closes: seq<real>, period: nat) returns (gain: real, loss: real)
    requires 0 < period < |closes|
    ensures var n, m := |closes|, period as real;
            && Times(gain, m) == Climb(closes, n - period, n) && Times(loss, m) == Slide(closes, n - period, n)
            && gain >= 0.0 && loss >= 0.0 && (loss == 0.0 <==> Slide(closes, n - period, n) == 0.0)
            && Rsi(closes, period) == RelativeStrength(gain, loss)
  {
    hide *;
    var n := |closes|;
    var recent := RsiWindow(closes, period);
    gain, loss := Mean(Rises(recent), period), Mean(Falls(recent), period);
    RisesAreClimb(closes, n - period, n);
    FallsAreSlide(closes, n - period, n);
    MovesAreNonNegative(closes, n - period, n);
    MeanTimes(Rises(recent), period);
    MeanTimes(Falls(recent), period);
  }

  /** The changes the code averages over are those of the last `period` days. */
  lemma RsiWindow(closes: seq<real>, period: nat) returns (recent: seq<real>)
    requires 0 < period < |closes|
    ensures |Changes(closes)| == |closes| - 1
    ensures recent == Changes(closes)[|closes| - period - 1..|closes| - 1]
    ensures Rsi(closes, period) == RelativeStrength(Mean(Rises(recent), period), Mean(Falls(recent), period))
  {
    hide RelativeStrength, Mean, Rises, Falls;
    recent := Last(Changes(closes), period);
  }

  lemma OneRsi(closes: seq<real>, period: nat, v: real, w: real)
    requires 0 < period < |closes| && IsRsi(closes, period, v) && IsRsi(closes, period, w)
    ensures v == w
  {
    var n := |closes|;
    MovesAreNonNegative(closes, n - period, n);
    var moved := Climb(closes, n - period, n) + Slide(closes, n - period, n);
    hide Climb, Slide, Times;
    if moved > 0.0 { TimesCancels(v, w, moved); }
  }

  lemma RsiReads(closes: seq<real>, period: nat, v: real)
    requires 0 < period < |closes| && IsRsi(closes, period, v)
    ensures Rsi(closes, period) == Value(v)
  {
    RsiIsRead(closes, period);
    OneRsi(closes, period, Rsi(closes, period).v, v);
  }

  /** Comparing the RSI with a level, fractions cleared. */
  lemma RsiAgainstLevel(closes: seq<real>, period: nat, v: real, level: real)
    requires 0 < period < |closes| && IsRsi(closes, period, v)
    ensures var n := |closes|; var up, down := Climb(closes, n - period, n), Slide(closes, n - period, n);
            && (v < level <==> if down == 0.0 then 100.0 < level else 100.0 * up < Times(level, up + down))
            && (v > level <==> if down == 0.0 then 100.0 > level else 100.0 * up > Times(level, up + down))
  {
    var n := |closes|;
    MovesAreNonNegative(closes, n - period, n);
    var moved := Climb(closes, n - period, n) + Slide(closes, n - period, n);
    hide Climb, Slide, Times;
    if moved > 0.0 {
      TimesOrder(v, level, moved);
      TimesOrder(level, v, moved);
    }
  }

  /** Buys what has mostly fallen and sells what has mostly risen. */
  lemma RsiMeans(period: nat, buy: real, sell: real, closes: seq<real>)
    requires period > 0 && closes != []
    ensures |closes| <= period ==> Eval(RsiStrategy(period, buy, sell), closes) == HOLD
    ensures |closes| > period ==>
              var n := |closes|; var up, down := Climb(closes, n - period, n), Slide(closes, n - period, n);
              Eval(RsiStrategy(period, buy, sell), closes)
              == if (if down == 0.0 then 100.0 < buy else 100.0 * up < Times(buy, up + down)) then BUY
                 else if (if down == 0.0 then 100.0 > sell else 100.0 * up > Times(sell, up + down)) then SELL
                 else HOLD
  {
    hide IsRsi, Climb, Slide, Times, Eval;
    EvalOfRsi(period, buy, sell, closes);
    if |closes| > period {
      hide Rsi;
      RsiIsRead(closes, period);
      var v := Rsi(closes, period).v;
      RsiAgainstLevel(closes, period, v, buy);
      RsiAgainstLevel(closes, period, v, sell);
    }
  }

  lemma EvalOfRsi(period: nat, buy: real, sell: real, closes: seq<real>)
    requires period > 0 && closes != []
    ensures Eval(RsiStrategy(period, buy, sell), closes) == RsiSignal(closes, period, buy, sell)
  {
    hide RsiSignal;
  }

  /** Two periods: `v` over the buying one, `w` over the selling one. */
  lemma AsymmetricMeans(fast: nat, buy: real, slow: nat, sell: real, closes: seq<real>, v: real, w: real)
    requires fast > 0 && slow > 0 && closes != []
    requires |closes| > fast ==> IsRsi(closes, fast, v)
    requires |closes| > slow ==> IsRsi(closes, slow, w)
    ensures Eval(AsymmetricRsi(fast, buy, slow, sell), closes)
            == if |closes| <= fast || |closes| <= slow then HOLD
               else if v < buy then BUY else if w > sell then SELL else HOLD
  {
    EvalOfAsymmetric(fast, buy, slow, sell, closes);
    assert |closes| <= fast ==> Rsi(closes, fast) == NotReady;
    assert |closes| <= slow ==> Rsi(closes, slow) == NotReady;
    hide IsRsi, Rsi, Eval;
    if |closes| > fast { RsiReads(closes, fast, v); }
    if |closes| > slow { RsiReads(closes, slow, w); }
  }

  lemma EvalOfAsymmetric(fast: nat, buy: real, slow: nat, sell: real, closes: seq<real>)
    requires fast > 0 && slow > 0 && closes != []
    ensures Eval(AsymmetricRsi(fast, buy, slow, sell), closes) == AsymmetricSignal(closes, fast, buy, slow, sell)
  {
    hide AsymmetricSignal;
  }

  lemma {:induction false} LowestIsLeast(s: seq<real>)
    requires s != []
    ensures Lowest(s) in s && forall i :: 0 <= i < |s| ==> Lowest(s) <= s[i]
  {
    if |s| > 1 { LowestIsLeast(s[..|s| - 1]); }
  }

  lemma {:induction false} HighestIsMost(s: seq<real>)
    requires s != []
    ensures Highest(s) in s && forall i :: 0 <= i < |s| ==> s[i] <= Highest(s)
  {
    if |s| > 1 { HighestIsMost(s[..|s| - 1]); }
  }

  lemma {:induction false} ReadingsAre(closes: seq<real>, period: nat, from: nat, vs: seq<real>)
    requires period > 0 && period <= from && from + |vs| <= |closes|
    requires forall k :: 0 <= k < |vs| ==> IsRsi(closes[..from + k + 1], period, vs[k])
    ensures Values(RsisUpTo(closes, period, from, |vs|)) == vs
    ensures DivisionByZero !in RsisUpTo(closes, period, from, |vs|)
  {
    hide Rsi, IsRsi;
    if vs != [] {
      var n := |vs| - 1;
      ReadingsAre(closes, period, from, vs[..n]);
      RsiReads(closes[..from + n + 1], period, vs[n]);
      assert RsisUpTo(closes, period, from, |vs|) == RsisUpTo(closes, period, from, n) + [Value(vs[n])];
      assert vs == vs[..n] + [vs[n]];
      assert (RsisUpTo(closes, period, from, n) + [Value(vs[n])])[..|RsisUpTo(closes, period, from, n)|]
          == RsisUpTo(closes, period, from, n);
    }
  }

  /** `vs` are the RSIs of the last six days, today's last: buys when one was oversold and today's is high enough
      above one of them. */
  lemma RecoveryMeans(period: nat, oversold: real, delta: real, sell: real, closes: seq<real>, vs: seq<real>)
    requires period > 0 && |closes| >= period + 6 && |vs| == 6
    requires forall k :: 0 <= k < 6 ==> IsRsi(closes[..|closes| - 5 + k], period, vs[k])
    ensures Eval(RsiRecovery(period, oversold, delta, sell), closes)
            == if (exists k :: 0 <= k < 6 && vs[k] < oversold) && (exists k :: 0 <= k < 6 && vs[5] - vs[k] >= delta)
               then BUY
               else if vs[5] > sell then SELL else HOLD
  {
    hide Eval, Rsi, RsisUpTo, Recovering;
    var from := |closes| - 6;
    EvalOfRecovery(period, oversold, delta, sell, closes);
    forall k | 0 <= k < 6 ensures IsRsi(closes[..from + k + 1], period, vs[k]) {
      assert from + k + 1 == |closes| - 5 + k;
    }
    hide IsRsi;
    ReadingsAre(closes, period, from, vs);
    RecoveringMeans(RsisUpTo(closes, period, from, 6), oversold, delta, sell, vs);
  }

  lemma EvalOfRecovery(period: nat, oversold: real, delta: real, sell: real, closes: seq<real>)
    requires period > 0 && |closes| >= period + 6
    ensures Eval(RsiRecovery(period, oversold, delta, sell), closes)
         == Recovering(RsisUpTo(closes, period, |closes| - 6, 6), oversold, delta, sell)
  {
    hide Recovering, RsisUpTo;
  }

  lemma RecoveringMeans(rs: seq<Reading<real>>, oversold: real, delta: real, sell: real, vs: seq<real>)
    requires |vs| == 6 && Values(rs) == vs && DivisionByZero !in rs
    ensures Recovering(rs, oversold, delta, sell)
            == if (exists k :: 0 <= k < 6 && vs[k] < oversold) && (exists k :: 0 <= k < 6 && vs[5] - vs[k] >= delta)
               then BUY
               else if vs[5] > sell then SELL else HOLD
  {
    LowestIsLeast(vs);
    hide Lowest, Values;
    var i :| 0 <= i < 6 && vs[i] == Lowest(vs);
  }

  lemma RecoveryWaits(period: nat, oversold: real, delta: real, sell: real, closes: seq<real>)
    requires 0 < period && 0 < |closes| < period + 6
    ensures Eval(RsiRecovery(period, oversold, delta, sell), closes) == HOLD
  {
  }

  // ----- BIAS

  /** `v` is the distance of the last close from the mean of the last `period`, in percent of that mean. */
  ghost predicate IsBias(closes: seq<real>, period: nat, v: real)
    requires 0 < period <= |closes|
  {
    var total := Total(closes, |closes| - period, |closes|);
    total != 0.0 && Times(v, total) == (Times(closes[|closes| - 1], period as real) - total) * 100.0
  }

  lemma BiasOfParts(price: real, ma: real, n: real, total: real)
    requires n > 0.0 && ma != 0.0 && Times(ma, n) == total
    ensures Times((price - ma) / ma * 100.0, total) == (Times(price, n) - total) * 100.0
  {
    var x := (price - ma) / ma;
    assert x * ma == price - ma;
    MultiplyThrough(x, ma, price - ma, n);
    assert (price - ma) * n == price * n - total;
    assert x * 100.0 * total == x * total * 100.0;
  }

  /** The code's reading: an exception exactly on a mean of zero. */
  lemma BiasReads(closes: seq<real>, period: nat)
    requires 0 < period <= |closes|
    ensures Total(closes, |closes| - period, |closes|) == 0.0 <==> Bias(closes, period) == DivisionByZero
    ensures Bias(closes, period).Value? || Bias(closes, period).DivisionByZero?
    ensures forall v :: IsBias(closes, period, v) ==> Bias(closes, period) == Value(v)
    ensures Bias(closes, period).Value? ==> IsBias(closes, period, Bias(closes, period).v)
  {
    hide Mean, Sum, Total, Times;
    SumOfLast(closes, period);
    MeanTimes(Last(closes, period), period);
    var total, ma := Total(closes, |closes| - period, |closes|), Mean(Last(closes, period), period);
    if ma != 0.0 {
      BiasOfParts(closes[|closes| - 1], ma, period as real, total);
      forall v | IsBias(closes, period, v) ensures Bias(closes, period) == Value(v) {
        TimesCancels(v, Bias(closes, period).v, total);
      }
    }
  }

  /** Buys far enough below the mean, sells far enough above it. */
  lemma BiasMeans(period: nat, buy: real, sell: real, closes: seq<real>, v: real)
    requires period > 0 && closes != [] && (|closes| >= period ==> IsBias(closes, period, v))
    ensures Eval(BiasStrategy(period, buy, sell), closes)
            == if |closes| < period then HOLD else if v <= buy then BUY else if v >= sell then SELL else HOLD
  {
    if |closes| >= period { BiasReads(closes, period); }
    hide IsBias;
  }

  /** For a positive mean, the same with fractions cleared. */
  lemma BiasFromPrices(period: nat, buy: real, sell: real, closes: seq<real>)
    requires 0 < period <= |closes| && Total(closes, |closes| - period, |closes|) > 0.0
    ensures var total := Total(closes, |closes| - period, |closes|);
            var off := (Times(closes[|closes| - 1], period as real) - total) * 100.0;
            Eval(BiasStrategy(period, buy, sell), closes)
            == if off <= Times(buy, total) then BUY else if off >= Times(sell, total) then SELL else HOLD
  {
    hide Bias, Total, Eval, Times;
    BiasReads(closes, period);
    var total, v := Total(closes, |closes| - period, |closes|), Bias(closes, period).v;
    BiasMeans(period, buy, sell, closes, v);
    TimesOrder(v, buy, total);
    TimesOrder(sell, v, total);
  }

  /** A mean of zero is a ZeroDivisionError. */
  lemma BiasOfZeroMean(period: nat, buy: real, sell: real, closes: seq<real>)
    requires 0 < period <= |closes| && Total(closes, |closes| - period, |closes|) == 0.0
    ensures Eval(BiasStrategy(period, buy, sell), closes) == Crash
  {
    BiasReads(closes, period);
  }

  /** Buys on the short mean, sells on the long one. */
  lemma MultiTimeframeMeans(fast: nat, buy: real, slow: nat, sell: real, closes: seq<real>, v: real, w: real)
    requires fast > 0 && slow > 0 && closes != []
    requires |closes| >= fast ==> IsBias(closes, fast, v)
    requires |closes| >= slow ==> IsBias(closes, slow, w)
    ensures Eval(MultiTimeframeBias(fast, buy, slow, sell), closes)
            == if |closes| < fast || |closes| < slow then HOLD
               else if v <= buy then BUY else if w >= sell then SELL else HOLD
  {
    if |closes| >= fast { BiasReads(closes, fast); }
    if |closes| >= slow { BiasReads(closes, slow); }
    hide IsBias;
  }

  /** A mean of zero in either is a ZeroDivisionError, whatever the other says. */
  lemma MultiTimeframeRaisesIff(fast: nat, buy: real, slow: nat, sell: real, closes: seq<real>)
    requires fast > 0 && slow > 0 && closes != []
    ensures var n := |closes|;
            Eval(MultiTimeframeBias(fast, buy, slow, sell), closes) == Crash
            <==> || (n >= fast && Total(closes, n - fast, n) == 0.0) || (n >= slow && Total(closes, n - slow, n) == 0.0)
  {
    assert |closes| < fast ==> Bias(closes, fast) == NotReady;
    assert |closes| < slow ==> Bias(closes, slow) == NotReady;
    hide Bias, Total;
    if |closes| >= fast { BiasReads(closes, fast); }
    if |closes| >= slow { BiasReads(closes, slow); }
  }

  lemma MomentumRaisesIff(period: nat, cross: real, sell: real, closes: seq<real>)
    requires period > 0 && |closes| >= period + 2
    ensures var n := |closes|; var before := closes[..n - 1];
            Eval(BiasMomentum(period, cross, sell), closes) == Crash
            <==> Total(before, n - 1 - period, n - 1) == 0.0 || Total(closes, n - period, n) == 0.0
  {
    hide Bias, Total;
    BiasReads(closes[..|closes| - 1], period);
    BiasReads(closes, period);
    hide IsBias;
  }

  /** `was` yesterday, `now` today: buys on an upward cross, sells far enough above the mean. */
  lemma MomentumMeans(period: nat, cross: real, sell: real, closes: seq<real>, was: real, now: real)
    requires period > 0 && |closes| >= period + 2
    requires IsBias(closes[..|closes| - 1], period, was) && IsBias(closes, period, now)
    ensures Eval(BiasMomentum(period, cross, sell), closes)
            == if was < cross <= now then BUY else if now >= sell then SELL else HOLD
  {
    BiasReads(closes[..|closes| - 1], period);
    BiasReads(closes, period);
    hide IsBias;
  }

  lemma MomentumWaits(period: nat, cross: real, sell: real, closes: seq<real>)
    requires 0 < period && 0 < |closes| < period + 2
    ensures Eval(BiasMomentum(period, cross, sell), closes) == HOLD
  {
  }

  // ----- bands

  /** `sma` is the mean of the last `period` closes and `root` their standard deviation. */
  ghost predicate IsBand(closes: seq<real>, period: nat, sma: real, root: real)
    requires 0 < period <= |closes|
  {
    var n, from := period as real, |closes| - period;
    && Times(sma, n) == Total(closes, from, |closes|)
    && root >= 0.0 && Times(root * root, n) == Scatter(closes, from, |closes|, sma)
  }

  lemma BandReads(closes: seq<real>, period: nat, sma: real, root: real)
    requires 0 < period <= |closes| && IsBand(closes, period, sma, root)
    ensures Bollinger(closes, period) == Value(Band(sma, root * root))
  {
    hide Mean, Total, Scatter, Squares, Sum, Times;
    var n, from := period as real, |closes| - period;
    var window := Last(closes, period);
    SumOfLast(closes, period);
    SquaresAreScatter(closes, from, |closes|, sma);
    assert window == closes[from..|closes|];
    MeanTimes(window, period);
    MeanTimes(Squares(window, sma), period);
    TimesCancels(Mean(window, period), sma, n);
    TimesCancels(Mean(Squares(window, sma), period), root * root, n);
  }

  /** Buys at or below the lower band, sells at or above the upper one. */
  lemma BollingerMeans(period: nat, std: real, closes: seq<real>, sma: real, root: real)
    requires period > 0 && closes != [] && (|closes| >= period ==> IsBand(closes, period, sma, root))
    ensures var price := closes[|closes| - 1];
            Eval(BollingerStrategy(period, std), closes)
            == if |closes| < period then HOLD
               else if price <= sma - std * root then BUY
               else if price >= sma + std * root then SELL else HOLD
  {
    if |closes| >= period {
      BandReads(closes, period, sma, root);
      assert root >= 0.0;
      BandTestsAgree(Band(sma, root * root), std, closes[|closes| - 1], root);
    }
    hide IsBand, BelowBand, AboveBand, Bollinger;
  }

  /** Stops a BUY of the inner signal unless the bands are wide enough, and nothing else. */
  lemma WidthGateMeans(inner: Strategy, period: nat, std: real, threshold: real, closes: seq<real>, sma: real,
                       root: real)
    requires inner.Valid() && period > 0 && closes != []
    requires |closes| >= period ==> IsBand(closes, period, sma, root)
    ensures Eval(WidthGated(inner, period, std, threshold), closes)
            == if Eval(inner, closes) != BUY then Eval(inner, closes)
               else if |closes| < period then HOLD
               else
                 var width := if sma > 0.0 then ((sma + std * root) - (sma - std * root)) / sma * 100.0 else 0.0;
                 if width >= threshold then BUY else HOLD
  {
    hide *;
    EvalOfGate(inner, period, std, threshold, closes);
    if |closes| >= period {
      BandReads(closes, period, sma, root);
      RootOfBand(closes, period, sma, root);
      WidthTestAgrees(Band(sma, root * root), std, threshold, root);
      GateReads(Eval(inner, closes), closes, period, std, threshold, Band(sma, root * root));
    } else {
      GateWaits(Eval(inner, closes), closes, period, std, threshold);
    }
  }

  lemma EvalOfGate(inner: Strategy, period: nat, std: real, threshold: real, closes: seq<real>)
    requires inner.Valid() && period > 0 && closes != []
    ensures WidthGated(inner, period, std, threshold).Valid()
    ensures Eval(WidthGated(inner, period, std, threshold), closes)
         == Gate(Eval(inner, closes), closes, period, std, threshold)
  {
    hide Gate;
  }

  lemma RootOfBand(closes: seq<real>, period: nat, sma: real, root: real)
    requires 0 < period <= |closes| && IsBand(closes, period, sma, root)
    ensures root >= 0.0
  {
    hide Total, Scatter, Times;
  }

  lemma GateReads(v: Verdict, closes: seq<real>, period: nat, std: real, threshold: real, b: Band)
    requires period > 0 && Bollinger(closes, period) == Value(b)
    ensures Gate(v, closes, period, std, threshold)
         == if v != BUY then v else if WideEnough(b, std, threshold) then BUY else HOLD
  {
    hide Bollinger, WideEnough;
  }

  lemma GateWaits(v: Verdict, closes: seq<real>, period: nat, std: real, threshold: real)
    requires |closes| < period
    ensures Gate(v, closes, period, std, threshold) == if v != BUY then v else HOLD
  {
  }

  // ----- moving averages

  /** `g` is the mean of the last `fast` closes minus that of the last `slow`. */
  ghost predicate IsGap(closes: seq<real>, fast: nat, slow: nat, g: real) {
    var f, s := fast as real, slow as real;
    var n := |closes|;
    Times(g, Times(f, s))
    == Times(Total(closes, Start(closes, fast), n), s) - Times(Total(closes, Start(closes, slow), n), f)
  }

  lemma GapReads(closes: seq<real>, fast: nat, slow: nat, g: real)
    requires fast > 0 && slow > 0
    ensures IsGap(closes, fast, slow, g) <==> Spread(closes, fast, slow) == g
  {
    hide Mean, Sum, Total, Times;
    SumOfLast(closes, fast);
    SumOfLast(closes, slow);
    MeanTimes(Last(closes, fast), fast);
    MeanTimes(Last(closes, slow), slow);
    var x, y := Mean(Last(closes, fast), fast), Mean(Last(closes, slow), slow);
    var tx, ty := Sum(Last(closes, fast)), Sum(Last(closes, slow));
    GapArithmetic(x, y, fast as real, slow as real, tx, ty, g);
  }

  lemma GapArithmetic(x: real, y: real, f: real, s: real, tx: real, ty: real, g: real)
    requires f > 0.0 && s > 0.0 && Times(x, f) == tx && Times(y, s) == ty
    ensures Times(g, Times(f, s)) == Times(tx, s) - Times(ty, f) <==> x - y == g
  {
    GapOfParts(x, y, f, s);
    MulPositive(f, s);
    var m := Times(f, s);
    hide Times;
    if Times(g, m) == Times(x - y, m) { TimesCancels(g, x - y, m); }
  }

  lemma GapOfParts(x: real, y: real, f: real, s: real)
    ensures Times(x - y, Times(f, s)) == Times(Times(x, f), s) - Times(Times(y, s), f)
  {
    MultiplyThrough(x, f, x * f, s);
    MultiplyThrough(y, s, y * s, f);
    assert (x - y) * (f * s) == x * (f * s) - y * (f * s);
    assert y * (f * s) == y * (s * f);
  }

  /** Buys when the short mean has crossed above the long one since yesterday, sells when below. */
  lemma CrossoverMeans(short: nat, long: nat, closes: seq<real>, was: real, now: real)
    requires short > 0 && long > 0 && |closes| >= long + 1
    requires IsGap(closes[..|closes| - 1], short, long, was) && IsGap(closes, short, long, now)
    ensures Eval(MaCrossover(short, long), closes)
            == if was <= 0.0 < now then BUY else if now < 0.0 <= was then SELL else HOLD
  {
    hide *;
    GapReads(closes[..|closes| - 1], short, long, was);
    GapReads(closes, short, long, now);
    CrossingOfGaps(short, long, closes);
    CrossingMeans(was, now);
  }

  lemma CrossingOfGaps(short: nat, long: nat, closes: seq<real>)
    requires short > 0 && long > 0 && |closes| >= long + 1
    ensures MaCrossover(short, long).Valid()
    ensures Eval(MaCrossover(short, long), closes)
         == Crossing(Spread(closes[..|closes| - 1], short, long), Spread(closes, short, long))
  {
    hide Spread, Crossing;
  }

  lemma CrossingMeans(was: real, now: real)
    ensures Crossing(was, now) == if was <= 0.0 < now then BUY else if now < 0.0 <= was then SELL else HOLD
  {
  }

  lemma CrossoverWaits(short: nat, long: nat, closes: seq<real>)
    requires short > 0 && 0 < |closes| < long + 1
    ensures Eval(MaCrossover(short, long), closes) == HOLD
  {
  }

  /** Buys when the gap is positive and larger than nine days ago, sells when negative and smaller. */
  lemma MacdMeans(fast: nat, slow: nat, closes: seq<real>, was: real, now: real)
    requires fast > 0 && slow > 0 && |closes| >= slow + 9
    requires IsGap(closes[..|closes| - 9], fast, slow, was) && IsGap(closes, fast, slow, now)
    ensures Eval(MacdStrategy(fast, slow), closes)
            == if now > was && now > 0.0 then BUY else if now < was && now < 0.0 then SELL else HOLD
  {
    hide IsGap, Spread;
    GapReads(closes[..|closes| - 9], fast, slow, was);
    GapReads(closes, fast, slow, now);
    hide Macd, Eval;
    MacdOfGaps(fast, slow, closes);
  }

  lemma MacdOfGaps(fast: nat, slow: nat, closes: seq<real>)
    requires fast > 0 && slow > 0 && |closes| >= slow + 9
    ensures Macd(closes, fast, slow)
         == Value((Spread(closes, fast, slow), Spread(closes[..|closes| - 9], fast, slow)))
    ensures Eval(MacdStrategy(fast, slow), closes) == MacdSignal(closes, fast, slow)
  {
    hide Spread, MacdSignal;
  }

  lemma MacdWaits(fast: nat, slow: nat, closes: seq<real>)
    requires fast > 0 && 0 < slow && 0 < |closes| < slow + 9
    ensures Eval(MacdStrategy(fast, slow), closes) == HOLD
  {
  }

  // ----- KD

  /** `hi` and `lo` are the highest and the lowest of the last `period` closes. */
  ghost predicate IsRange(closes: seq<real>, period: nat, hi: real, lo: real)
    requires 0 < period <= |closes|
  {
    var from := |closes| - period;
    && (forall i :: from <= i < |closes| ==> lo <= closes[i] <= hi)
    && (exists i :: from <= i < |closes| && closes[i] == hi)
    && (exists i :: from <= i < |closes| && closes[i] == lo)
  }

  lemma RangeReads(closes: seq<real>, period: nat, hi: real, lo: real)
    requires 0 < period <= |closes| && IsRange(closes, period, hi, lo)
    ensures Highest(Last(closes, period)) == hi && Lowest(Last(closes, period)) == lo
  {
    var window, from := Last(closes, period), |closes| - period;
    assert window == closes[from..];
    HighestIsMost(window);
    LowestIsLeast(window);
    var i :| from <= i < |closes| && closes[i] == hi;
    var j :| from <= j < |closes| && closes[j] == lo;
    assert window[i - from] == hi && window[j - from] == lo;
    var k :| 0 <= k < |window| && window[k] == Highest(window);
    var l :| 0 <= l < |window| && window[l] == Lowest(window);
    assert closes[from + k] == Highest(window) && closes[from + l] == Lowest(window);
  }

  /** K is where the last close stands between the lowest and the highest, in percent, and D lies above K exactly
      below 50: buys low in the range, sells high in it, and holds when the range is empty. */
  lemma KdMeans(period: nat, buy: real, sell: real, closes: seq<real>, hi: real, lo: real)
    requires 0 < period <= |closes| && IsRange(closes, period, hi, lo)
    ensures var at, width := closes[|closes| - 1] - lo, hi - lo;
            Eval(KdStrategy(period, buy, sell), closes)
            == if at * 100.0 < Times(buy, width) && 2.0 * at < width then BUY
               else if at * 100.0 > Times(sell, width) && 2.0 * at > width then SELL else HOLD
  {
    hide Eval, KAndD, Highest, Lowest, Last;
    var at, width := closes[|closes| - 1] - lo, hi - lo;
    RangeReads(closes, period, hi, lo);
    EvalOfKd(period, buy, sell, closes);
    assert 0.0 <= at <= width;
    hide IsRange;
    if width > 0.0 { KdOfParts(at, width, buy, sell); }
  }

  lemma EvalOfKd(period: nat, buy: real, sell: real, closes: seq<real>)
    requires 0 < period <= |closes|
    ensures Eval(KdStrategy(period, buy, sell), closes) == KdSignal(closes, period, buy, sell)
  {
    hide KdSignal;
  }

  lemma KdOfParts(at: real, width: real, buy: real, sell: real)
    requires width > 0.0
    ensures var r := KAndD(at, width);
            && (r.0 < buy <==> at * 100.0 < Times(buy, width)) && (r.0 < r.1 <==> 2.0 * at < width)
            && (r.0 > sell <==> at * 100.0 > Times(sell, width)) && (r.0 > r.1 <==> 2.0 * at > width)
  {
    PercentOfWidth(at, width, buy);
    PercentOfWidth(at, width, sell);
    PercentOfWidth(at, width, 50.0);
    DAboveK(at / width * 100.0);
  }

  lemma DAboveK(k: real)
    ensures k < k * 2.0 / 3.0 + 50.0 / 3.0 <==> k < 50.0
    ensures k > k * 2.0 / 3.0 + 50.0 / 3.0 <==> k > 50.0
  {
  }

  lemma PercentOfWidth(at: real, width: real, level: real)
    requires width > 0.0
    ensures at / width * 100.0 < level <==> at * 100.0 < Times(level, width)
    ensures at / width * 100.0 > level <==> at * 100.0 > Times(level, width)
  {
    var x := at / width;
    assert x * width == at;
    var k := x * 100.0;
    assert Times(k, width) == at * 100.0;
    hide Times;
    TimesOrder(k, level, width);
    TimesOrder(level, k, width);
  }

  lemma KdWaits(period: nat, buy: real, sell: real, closes: seq<real>)
    requires 0 < |closes| < period
    ensures Eval(KdStrategy(period, buy, sell), closes) == HOLD
  {
  }

  // ----- votes

  /** The sub-signals that say `v`. */
  ghost function Voters(subs: seq<Strategy>, closes: seq<real>, v: Verdict): set<nat>
    requires closes != [] && forall i :: 0 <= i < |subs| ==> subs[i].Valid()
  {
    set i: nat | i < |subs| && Eval(subs[i], closes) == v
  }

  lemma {:induction false} CountIsSet(vs: seq<Verdict>, v: Verdict)
    ensures Count(vs, v) == |set i: nat | i < |vs| && vs[i] == v|
  {
    var all := set i: nat | i < |vs| && vs[i] == v;
    if vs == [] {
      assert all == {};
    } else {
      var n: nat := |vs| - 1;
      CountIsSet(vs[..n], v);
      var before := set i: nat | i < |vs[..n]| && vs[..n][i] == v;
      assert all == if vs[n] == v then before + {n} else before;
    }
  }

  /** A composite raises when a sub-signal does; otherwise it buys or sells when all, any or more than half of its
      sub-signals do, buying first. */
  lemma CompositeMeans(subs: seq<Strategy>, mode: Mode, closes: seq<real>)
    requires closes != [] && forall i :: 0 <= i < |subs| ==> subs[i].Valid()
    ensures var buys, sells := Voters(subs, closes, BUY), Voters(subs, closes, SELL);
            Eval(Composite(subs, mode), closes)
            == if exists i :: 0 <= i < |subs| && Eval(subs[i], closes) == Crash then Crash
               else match mode
                    case All =>
                      if forall i :: 0 <= i < |subs| ==> Eval(subs[i], closes) == BUY then BUY
                      else if forall i :: 0 <= i < |subs| ==> Eval(subs[i], closes) == SELL then SELL else HOLD
                    case Any =>
                      if exists i :: 0 <= i < |subs| && Eval(subs[i], closes) == BUY then BUY
                      else if exists i :: 0 <= i < |subs| && Eval(subs[i], closes) == SELL then SELL else HOLD
                    case Majority =>
                      if 2 * |buys| > |subs| then BUY else if 2 * |sells| > |subs| then SELL else HOLD
  {
    hide Eval, Count, Voters;
    var vs := VotesOf(subs, mode, closes);
    CountVotes(subs, closes, vs, BUY);
    CountVotes(subs, closes, vs, SELL);
  }

  lemma VotesOf(subs: seq<Strategy>, mode: Mode, closes: seq<real>) returns (vs: seq<Verdict>)
    requires closes != [] && forall i :: 0 <= i < |subs| ==> subs[i].Valid()
    ensures |vs| == |subs| && forall i :: 0 <= i < |subs| ==> vs[i] == Eval(subs[i], closes)
    ensures Eval(Composite(subs, mode), closes)
         == if Crash in vs then Crash else Vote(mode, Count(vs, BUY), Count(vs, SELL), |vs|)
  {
    hide Vote, Count;
    vs := seq(|subs|, i requires 0 <= i < |subs| => Eval(subs[i], closes));
  }

  lemma CountVotes(subs: seq<Strategy>, closes: seq<real>, vs: seq<Verdict>, v: Verdict)
    requires closes != [] && forall i :: 0 <= i < |subs| ==> subs[i].Valid()
    requires |vs| == |subs| && forall i :: 0 <= i < |subs| ==> vs[i] == Eval(subs[i], closes)
    ensures Count(vs, v) == |Voters(subs, closes, v)|
    ensures Count(vs, v) == |vs| <==> forall i :: 0 <= i < |subs| ==> Eval(subs[i], closes) == v
    ensures Count(vs, v) > 0 <==> exists i :: 0 <= i < |subs| && Eval(subs[i], closes) == v
  {
    hide Eval;
    CountIsSet(vs, v);
    assert Voters(subs, closes, v) == set i: nat | i < |vs| && vs[i] == v;
    CountBounds(vs, v);
  }

  lemma {:induction false} CountBounds(vs: seq<Verdict>, v: Verdict)
    ensures Count(vs, v) <= |vs|
    ensures Count(vs, v) == |vs| <==> forall i :: 0 <= i < |vs| ==> vs[i] == v
    ensures Count(vs, v) > 0 <==> exists i :: 0 <= i < |vs| && vs[i] == v
  {
    if vs != [] { CountBounds(vs[..|vs| - 1], v); }
  }

  /** The consecutive-days filter only ever turns a BUY into a HOLD. */
  lemma FilterOnlyDelays(inner: Strategy, days: int, closes: seq<real>)
    requires inner.Valid() && closes != []
    ensures var v, w := Eval(inner, closes), Eval(Consecutive(inner, days), closes);
            (v != BUY ==> w == v) && (v == BUY ==> w == BUY || w == HOLD)
  {
  }
}
