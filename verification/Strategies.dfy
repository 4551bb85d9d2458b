/** The signal builders: base strategies, the voting composite, and the filters of the extended script. */
module Strategies {
  import opened Indicators
  import opened Reals
  import Ledger

  datatype Mode = All | Any | Majority

  /** A signal function, as a tree.  Periods count days; every other parameter is any real. */
  datatype Strategy =
    | RsiStrategy(period: nat, buy: real, sell: real)
    | BiasStrategy(period: nat, buy: real, sell: real)
    | BollingerStrategy(period: nat, std: real)
    | MacdStrategy(fast: nat, slow: nat)
    | KdStrategy(period: nat, buy: real, sell: real)
    | MaCrossover(short: nat, long: nat)
    | Composite(subs: seq<Strategy>, mode: Mode)
    | MultiTimeframeBias(fast: nat, buy: real, slow: nat, sell: real)
    | AsymmetricRsi(fast: nat, buy: real, slow: nat, sell: real)
    | WidthGated(inner: Strategy, period: nat, std: real, threshold: real)
    | RsiRecovery(period: nat, oversold: real, delta: real, sell: real)
    | BiasMomentum(period: nat, cross: real, sell: real)
    | Consecutive(inner: Strategy, days: int)
  {
    /** Every period is at least one day. */
    predicate Valid() {
      match this
      case RsiStrategy(p, _, _) => p > 0
      case BiasStrategy(p, _, _) => p > 0
      case BollingerStrategy(p, _) => p > 0
      case MacdStrategy(f, s) => f > 0 && s > 0
      case KdStrategy(p, _, _) => p > 0
      case MaCrossover(s, l) => s > 0 && l > 0
      case Composite(subs, _) => forall i :: 0 <= i < |subs| ==> subs[i].Valid()
      case MultiTimeframeBias(f, _, s, _) => f > 0 && s > 0
      case AsymmetricRsi(f, _, s, _) => f > 0 && s > 0
      case WidthGated(inner, p, _, _) => inner.Valid() && p > 0
      case RsiRecovery(p, _, _, _) => p > 0
      case BiasMomentum(p, _, _) => p > 0
      case Consecutive(inner, _) => inner.Valid()
    }
  }

  /** A call to a signal function: an action, or a ZeroDivisionError. */
  datatype Verdict = Act(action: Ledger.Action) | Crash

  const BUY := Act(Ledger.Buy)
  const SELL := Act(Ledger.Sell)
  const HOLD := Act(Ledger.Hold)

  /** The price is at or below the lower band: price <= sma - std * deviation. */
  predicate BelowBand(b: Band, std: real, price: real) {
    RootAtLeast(-std, b.variance, price - b.sma)
  }

  /** The price is at or above the upper band. */
  predicate AboveBand(b: Band, std: real, price: real) {
    RootAtLeast(-std, b.variance, b.sma - price)
  }

  /** The band's width, in percent of its centre, reaches the threshold. */
  predicate WideEnough(b: Band, std: real, threshold: real) {
    if b.sma > 0.0 then RootAtLeast(200.0 * std, b.variance, threshold * b.sma) else 0.0 >= threshold
  }

  function Count(vs: seq<Verdict>, v: Verdict): nat {
    if vs == [] then 0 else Count(vs[..|vs| - 1], v) + if vs[|vs| - 1] == v then 1 else 0
  }

  /** The three voting modes over `total` votes. */
  function Vote(mode: Mode, buys: nat, sells: nat, total: nat): Verdict {
    match mode
    case All => if buys == total then BUY else if sells == total then SELL else HOLD
    case Any => if buys > 0 then BUY else if sells > 0 then SELL else HOLD
    case Majority => if 2 * buys > total then BUY else if 2 * sells > total then SELL else HOLD
  }

  function Threshold(r: Reading<real>, buy: bool, sell: bool): Verdict {
    match r
    case NotReady => HOLD
    case DivisionByZero => Crash
    case Value(_) => if buy then BUY else if sell then SELL else HOLD
  }

  function Values(rs: seq<Reading<real>>): seq<real> {
    if rs == [] then []
    else Values(rs[..|rs| - 1]) + if rs[|rs| - 1].Value? then [rs[|rs| - 1].v] else []
  }

  /** `n` RSI readings, oldest first: of the first from+1, from+2, ... closes. */
  function RsisUpTo(closes: seq<real>, period: nat, from: nat, n: nat): seq<Reading<real>>
    requires period > 0 && from + n <= |closes|
  {
    if n == 0 then [] else RsisUpTo(closes, period, from, n - 1) + [Rsi(closes[..from + n], period)]
  }

  /** Two readings taken before anything is decided. */
  function Both(x: Reading<real>, y: Reading<real>, buy: bool, sell: bool): Verdict {
    if x.DivisionByZero? || y.DivisionByZero? then Crash
    else if x.NotReady? || y.NotReady? then HOLD
    else if buy then BUY else if sell then SELL else HOLD
  }

  // ----- one function per builder

  function RsiSignal(closes: seq<real>, period: nat, buy: real, sell: real): Verdict
    requires period > 0
  {
    var r := Rsi(closes, period);
    Threshold(r, r.Value? && r.v < buy, r.Value? && r.v > sell)
  }

  function BiasSignal(closes: seq<real>, period: nat, buy: real, sell: real): Verdict
    requires period > 0
  {
    var b := Bias(closes, period);
    Threshold(b, b.Value? && b.v <= buy, b.Value? && b.v >= sell)
  }

  function BollingerSignal(closes: seq<real>, period: nat, std: real): Verdict
    requires period > 0 && closes != []
  {
    var b := Bollinger(closes, period);
    var price := closes[|closes| - 1];
    if !b.Value? then HOLD
    else if BelowBand(b.v, std, price) then BUY
    else if AboveBand(b.v, std, price) then SELL
    else HOLD
  }

  function MacdSignal(closes: seq<real>, fast: nat, slow: nat): Verdict
    requires fast > 0 && slow > 0
  {
    var m := Macd(closes, fast, slow);
    if !m.Value? then HOLD
    else if m.v.0 > m.v.1 && m.v.0 > 0.0 then BUY
    else if m.v.0 < m.v.1 && m.v.0 < 0.0 then SELL
    else HOLD
  }

  function KdSignal(closes: seq<real>, period: nat, buy: real, sell: real): Verdict
    requires period > 0
  {
    var r := Kd(closes, period);
    if !r.Value? then HOLD
    else if r.v.0 < buy && r.v.0 < r.v.1 then BUY
    else if r.v.0 > sell && r.v.0 > r.v.1 then SELL
    else HOLD
  }

  /** The sign of short mean minus long mean, yesterday and today. */
  function Crossing(prev: real, now: real): Verdict {
    if prev <= 0.0 && now > 0.0 then BUY
    else if prev >= 0.0 && now < 0.0 then SELL
    else HOLD
  }

  function CrossoverSignal(closes: seq<real>, short: nat, long: nat): Verdict
    requires short > 0 && long > 0
  {
    if |closes| < long + 1 then HOLD
    else Crossing(Spread(closes[..|closes| - 1], short, long), Spread(closes, short, long))
  }

  function MultiTimeframeSignal(closes: seq<real>, fast: nat, buy: real, slow: nat, sell: real): Verdict
    requires fast > 0 && slow > 0
  {
    var f, l := Bias(closes, fast), Bias(closes, slow);
    Both(f, l, f.Value? && f.v <= buy, l.Value? && l.v >= sell)
  }

  function AsymmetricSignal(closes: seq<real>, fast: nat, buy: real, slow: nat, sell: real): Verdict
    requires fast > 0 && slow > 0
  {
    var f, l := Rsi(closes, fast), Rsi(closes, slow);
    Both(f, l, f.Value? && f.v < buy, l.Value? && l.v > sell)
  }

  /** Lets a BUY of the inner signal through only when the band is wide enough. */
  function Gate(v: Verdict, closes: seq<real>, period: nat, std: real, threshold: real): Verdict
    requires period > 0
  {
    if v != BUY then v
    else
      var b := Bollinger(closes, period);
      if b.Value? && WideEnough(b.v, std, threshold) then BUY else HOLD
  }

  function Recovering(rs: seq<Reading<real>>, oversold: real, delta: real, sell: real): Verdict {
    var vs := Values(rs);
    if DivisionByZero in rs then Crash
    else if |vs| < 3 then HOLD
    else if Lowest(vs) < oversold && vs[|vs| - 1] - Lowest(vs) >= delta then BUY
    else if vs[|vs| - 1] > sell then SELL
    else HOLD
  }

  /** Looks back over `bars` days, today included. */
  function RecoverySignal(closes: seq<real>, period: nat, bars: nat, oversold: real, delta: real, sell: real): Verdict
    requires period > 0
  {
    if |closes| < period + bars then HOLD
    else Recovering(RsisUpTo(closes, period, |closes| - bars, bars), oversold, delta, sell)
  }

  /** An upward cross of the threshold between two readings, or a reading at the selling level. */
  function CrossingUp(prev: Reading<real>, now: Reading<real>, cross: real, sell: real): Verdict {
    Both(now, prev, now.Value? && prev.Value? && prev.v < cross && now.v >= cross, now.Value? && now.v >= sell)
  }

  function MomentumSignal(closes: seq<real>, period: nat, cross: real, sell: real): Verdict
    requires period > 0
  {
    if |closes| < period + 2 then HOLD
    else CrossingUp(Bias(closes[..|closes| - 1], period), Bias(closes, period), cross, sell)
  }

  /** What the signal function answers when it is shown the closes so far. */
  function Eval(s: Strategy, closes: seq<real>): Verdict
    requires s.Valid() && closes != []
    decreases s, |closes|, 0
  {
    match s
    case RsiStrategy(p, buy, sell) => RsiSignal(closes, p, buy, sell)
    case BiasStrategy(p, buy, sell) => BiasSignal(closes, p, buy, sell)
    case BollingerStrategy(p, std) => BollingerSignal(closes, p, std)
    case MacdStrategy(fast, slow) => MacdSignal(closes, fast, slow)
    case KdStrategy(p, buy, sell) => KdSignal(closes, p, buy, sell)
    case MaCrossover(short, long) => CrossoverSignal(closes, short, long)
    case Composite(subs, mode) =>
      var vs := seq(|subs|, i requires 0 <= i < |subs| => Eval(subs[i], closes));
      if Crash in vs then Crash else Vote(mode, Count(vs, BUY), Count(vs, SELL), |vs|)
    case MultiTimeframeBias(fast, buy, slow, sell) => MultiTimeframeSignal(closes, fast, buy, slow, sell)
    case AsymmetricRsi(fast, buy, slow, sell) => AsymmetricSignal(closes, fast, buy, slow, sell)
    case WidthGated(inner, p, std, threshold) => Gate(Eval(inner, closes), closes, p, std, threshold)
    case RsiRecovery(p, oversold, delta, sell) => RecoverySignal(closes, p, 6, oversold, delta, sell)
    case BiasMomentum(p, cross, sell) => MomentumSignal(closes, p, cross, sell)
    case Consecutive(inner, days) =>
      var v := Eval(inner, closes);
      if v != BUY then v
      else if BuyStreak(inner, closes) >= days then BUY else HOLD
  }

  /** For how many days in a row, up to today, the inner signal has said BUY.  An engine first asks on
      day 1, with two closes. */
  function BuyStreak(inner: Strategy, closes: seq<real>): nat
    requires inner.Valid()
    decreases inner, |closes|, 1
  {
    if |closes| < 2 || Eval(inner, closes) != BUY then 0
    else 1 + BuyStreak(inner, closes[..|closes| - 1])
  }

  // ----- the band comparisons mean what the code computes

  /** For every non-negative root of the variance, the root-free tests agree with comparing the price
      with the two bands. */
  lemma BandTestsAgree(b: Band, std: real, price: real, root: real)
    requires root >= 0.0 && root * root == b.variance
    ensures BelowBand(b, std, price) <==> price <= b.sma - std * root
    ensures AboveBand(b, std, price) <==> price >= b.sma + std * root
  {
    RootAtLeastAgrees(-std, b.variance, price - b.sma, root);
    RootAtLeastAgrees(-std, b.variance, b.sma - price, root);
    hide RootAtLeast;
    assert -std * root == -(std * root);
  }

  /** And so does the width test with comparing (upper - lower) / middle * 100 with the threshold. */
  lemma WidthTestAgrees(b: Band, std: real, threshold: real, root: real)
    requires root >= 0.0 && root * root == b.variance
    ensures var lower, upper := b.sma - std * root, b.sma + std * root;
            WideEnough(b, std, threshold)
            <==> (if b.sma > 0.0 then (upper - lower) / b.sma * 100.0 else 0.0) >= threshold
  {
    if b.sma > 0.0 {
      var w := std * root;
      RootAtLeastAgrees(200.0 * std, b.variance, threshold * b.sma, root);
      hide RootAtLeast;
      assert 200.0 * std * root == 200.0 * w;
      PercentAtLeast(w + w, b.sma, threshold);
    }
  }

  lemma PercentAtLeast(x: real, m: real, t: real)
    requires m > 0.0
    ensures x / m * 100.0 >= t <==> x * 100.0 >= t * m
  {
    var q := x / m;
    assert q * m == x;
    var d := q * 100.0 - t;
    assert d * m == x * 100.0 - t * m;
    if d > 0.0 { MulPositive(d, m); } else if d < 0.0 { MulPositive(-d, m); assert -d * m == -(d * m); }
  }

  // ----- unit freedom

  lemma BandSidesIgnoreScale(c: real, b: Band, std: real, price: real)
    requires c > 0.0
    ensures var s := Band(Times(c, b.sma), Twice(c, b.variance));
            && (BelowBand(s, std, Times(c, price)) <==> BelowBand(b, std, price))
            && (AboveBand(s, std, Times(c, price)) <==> AboveBand(b, std, price))
  {
    TimesOfDifference(c, price, b.sma);
    TimesOfDifference(c, b.sma, price);
    RootAtLeastIgnoresScale(c, -std, b.variance, price - b.sma);
    RootAtLeastIgnoresScale(c, -std, b.variance, b.sma - price);
  }

  lemma WidthIgnoresScale(c: real, b: Band, std: real, threshold: real)
    requires c > 0.0
    ensures WideEnough(Band(Times(c, b.sma), Twice(c, b.variance)), std, threshold) <==> WideEnough(b, std, threshold)
  {
    OrderIgnoresScale(c, b.sma, 0.0);
    assert threshold * Times(c, b.sma) == Times(c, threshold * b.sma);
    RootAtLeastIgnoresScale(c, 200.0 * std, b.variance, threshold * b.sma);
  }

  lemma BandSignalIgnoresScale(c: real, closes: seq<real>, period: nat, std: real)
    requires c > 0.0 && period > 0 && closes != []
    ensures BollingerSignal(Scale(c, closes), period, std) == BollingerSignal(closes, period, std)
  {
    var b := Bollinger(closes, period);
    ScaleBollinger(c, closes, period);
    if b.Value? { BandSidesIgnoreScale(c, b.v, std, closes[|closes| - 1]); }
  }

  lemma GateIgnoresScale(c: real, v: Verdict, closes: seq<real>, period: nat, std: real, threshold: real)
    requires c > 0.0 && period > 0
    ensures Gate(v, Scale(c, closes), period, std, threshold) == Gate(v, closes, period, std, threshold)
  {
    var b := Bollinger(closes, period);
    ScaleBollinger(c, closes, period);
    if b.Value? { WidthIgnoresScale(c, b.v, std, threshold); }
  }

  lemma MacdSignalIgnoresScale(c: real, closes: seq<real>, fast: nat, slow: nat)
    requires c > 0.0 && fast > 0 && slow > 0
    ensures MacdSignal(Scale(c, closes), fast, slow) == MacdSignal(closes, fast, slow)
  {
    var m := Macd(closes, fast, slow);
    ScaleMacd(c, closes, fast, slow);
    if m.Value? {
      OrderIgnoresScale(c, m.v.0, m.v.1);
      OrderIgnoresScale(c, m.v.1, m.v.0);
      OrderIgnoresScale(c, m.v.0, 0.0);
      OrderIgnoresScale(c, 0.0, m.v.0);
    }
  }

  lemma SignIgnoresScale(c: real, data: seq<real>, fast: nat, slow: nat)
    requires fast > 0 && slow > 0 && c > 0.0
    ensures var x, y := Spread(Scale(c, data), fast, slow), Spread(data, fast, slow);
            (x > 0.0 <==> y > 0.0) && (x == 0.0 <==> y == 0.0)
  {
    ScaleSpread(c, data, fast, slow);
    OrderIgnoresScale(c, Spread(data, fast, slow), 0.0);
  }

  lemma CrossoverIgnoresScale(c: real, closes: seq<real>, short: nat, long: nat)
    requires c > 0.0 && short > 0 && long > 0
    ensures CrossoverSignal(Scale(c, closes), short, long) == CrossoverSignal(closes, short, long)
  {
    hide Spread, Scale;
    if |closes| >= long + 1 {
      var prev := closes[..|closes| - 1];
      assert Scale(c, closes)[..|closes| - 1] == Scale(c, prev) by { ScaleSlice(c, closes, 0, |closes| - 1); }
      assert CrossoverSignal(Scale(c, closes), short, long)
          == Crossing(Spread(Scale(c, prev), short, long), Spread(Scale(c, closes), short, long));
      SignIgnoresScale(c, closes, short, long);
      SignIgnoresScale(c, prev, short, long);
    }
  }

  lemma PrefixRsiIgnoresScale(c: real, closes: seq<real>, m: nat, period: nat)
    requires c > 0.0 && period > 0 && m <= |closes|
    ensures Rsi(Scale(c, closes)[..m], period) == Rsi(closes[..m], period)
  {
    ScaleSlice(c, closes, 0, m);
    RsiIgnoresScale(c, closes[..m], period);
  }

  lemma {:induction false} RsisIgnoreScale(c: real, closes: seq<real>, period: nat, from: nat, n: nat)
    requires c > 0.0 && period > 0 && from + n <= |closes|
    ensures RsisUpTo(Scale(c, closes), period, from, n) == RsisUpTo(closes, period, from, n)
  {
    hide Rsi, Scale;
    if n > 0 {
      RsisIgnoreScale(c, closes, period, from, n - 1);
      PrefixRsiIgnoresScale(c, closes, from + n, period);
    }
  }

  lemma RecoveryIgnoresScale(c: real, closes: seq<real>, period: nat, bars: nat,
                             oversold: real, delta: real, sell: real)
    requires c > 0.0 && period > 0
    ensures RecoverySignal(Scale(c, closes), period, bars, oversold, delta, sell)
         == RecoverySignal(closes, period, bars, oversold, delta, sell)
  {
    hide Rsi, Scale, Recovering, RsisUpTo;
    if |closes| >= period + bars { RsisIgnoreScale(c, closes, period, |closes| - bars, bars); }
  }

  lemma MomentumIgnoresScale(c: real, closes: seq<real>, period: nat, cross: real, sell: real)
    requires c > 0.0 && period > 0
    ensures MomentumSignal(Scale(c, closes), period, cross, sell) == MomentumSignal(closes, period, cross, sell)
  {
    hide Bias, Scale, CrossingUp;
    if |closes| >= period + 2 {
      var prev := closes[..|closes| - 1];
      assert Scale(c, closes)[..|closes| - 1] == Scale(c, prev) by { ScaleSlice(c, closes, 0, |closes| - 1); }
      assert Bias(Scale(c, closes), period) == Bias(closes, period) by { BiasIgnoresScale(c, closes, period); }
      assert Bias(Scale(c, prev), period) == Bias(prev, period) by { BiasIgnoresScale(c, prev, period); }
    }
  }

  /** Quoting every price in another unit changes no signal: every strategy, however nested, gives the
      same answer (or the same ZeroDivisionError) on any series and on the series times c > 0. */
  lemma {:induction false} SignalsIgnoreScale(s: Strategy, closes: seq<real>, c: real)
    requires s.Valid() && closes != [] && c > 0.0
    ensures Eval(s, Scale(c, closes)) == Eval(s, closes)
    decreases s, |closes|, 1
  {
    match s
    case RsiStrategy(p, _, _) => RsiIgnoresScale(c, closes, p);
    case BiasStrategy(p, _, _) => BiasIgnoresScale(c, closes, p);
    case BollingerStrategy(p, std) => BandSignalIgnoresScale(c, closes, p, std);
    case MacdStrategy(fast, slow) => MacdSignalIgnoresScale(c, closes, fast, slow);
    case KdStrategy(p, _, _) => KdIgnoresScale(c, closes, p);
    case MaCrossover(short, long) => CrossoverIgnoresScale(c, closes, short, long);
    case Composite(_, _) => VotesIgnoreScale(s, closes, c);
    case MultiTimeframeBias(fast, _, slow, _) =>
      BiasIgnoresScale(c, closes, fast);
      BiasIgnoresScale(c, closes, slow);
    case AsymmetricRsi(fast, _, slow, _) =>
      RsiIgnoresScale(c, closes, fast);
      RsiIgnoresScale(c, closes, slow);
    case WidthGated(inner, p, std, threshold) =>
      SignalsIgnoreScale(inner, closes, c);
      GateIgnoresScale(c, Eval(inner, closes), closes, p, std, threshold);
    case RsiRecovery(p, oversold, delta, sell) => RecoveryIgnoresScale(c, closes, p, 6, oversold, delta, sell);
    case BiasMomentum(p, cross, sell) => MomentumIgnoresScale(c, closes, p, cross, sell);
    case Consecutive(inner, _) =>
      SignalsIgnoreScale(inner, closes, c);
      StreakIgnoresScale(inner, closes, c);
  }

  lemma VotesIgnoreScale(s: Strategy, closes: seq<real>, c: real)
    requires s.Composite? && s.Valid() && closes != [] && c > 0.0
    ensures forall i :: 0 <= i < |s.subs| ==> Eval(s.subs[i], Scale(c, closes)) == Eval(s.subs[i], closes)
    ensures Eval(s, Scale(c, closes)) == Eval(s, closes)
    decreases s, |closes|, 0
  {
    var left := seq(|s.subs|, i requires 0 <= i < |s.subs| => Eval(s.subs[i], Scale(c, closes)));
    var right := seq(|s.subs|, i requires 0 <= i < |s.subs| => Eval(s.subs[i], closes));
    forall i | 0 <= i < |s.subs| ensures left[i] == right[i] {
      SignalsIgnoreScale(s.subs[i], closes, c);
    }
    assert left == right;
    assert forall i :: 0 <= i < |s.subs| ==> Eval(s.subs[i], Scale(c, closes)) == left[i];
  }

  lemma {:induction false} StreakIgnoresScale(inner: Strategy, closes: seq<real>, c: real)
    requires inner.Valid() && c > 0.0
    ensures BuyStreak(inner, Scale(c, closes)) == BuyStreak(inner, closes)
    decreases inner, |closes|, 2
  {
    hide Scale;
    if |closes| >= 2 {
      SignalsIgnoreScale(inner, closes, c);
      ScaleSlice(c, closes, 0, |closes| - 1);
      StreakIgnoresScale(inner, closes[..|closes| - 1], c);
    }
  }

  // ----- no ZeroDivisionError

  /** On positive prices no strategy, however nested, divides by zero. */
  lemma {:induction false} PositivePricesNeverCrash(s: Strategy, closes: seq<real>)
    requires s.Valid() && closes != [] && Positive(closes)
    ensures Eval(s, closes) != Crash
    decreases s, |closes|
  {
    hide Rsi, Bias;
    match s
    case RsiStrategy(p, _, _) => RsiIsDefined(closes, p);
    case BiasStrategy(p, _, _) => BiasIsDefined(closes, p);
    case MultiTimeframeBias(fast, _, slow, _) =>
      BiasIsDefined(closes, fast);
      BiasIsDefined(closes, slow);
    case AsymmetricRsi(fast, _, slow, _) =>
      RsiIsDefined(closes, fast);
      RsiIsDefined(closes, slow);
    case RsiRecovery(p, oversold, delta, sell) => RecoveryIsDefined(closes, p, 6, oversold, delta, sell);
    case BiasMomentum(p, _, _) =>
      BiasIsDefined(closes, p);
      BiasIsDefined(closes[..|closes| - 1], p);
    case Composite(subs, _) =>
      forall i | 0 <= i < |subs| ensures Eval(subs[i], closes) != Crash {
        PositivePricesNeverCrash(subs[i], closes);
      }
    case WidthGated(inner, _, _, _) => PositivePricesNeverCrash(inner, closes);
    case Consecutive(inner, _) => PositivePricesNeverCrash(inner, closes);
    case _ =>
  }

  lemma RecoveryIsDefined(closes: seq<real>, period: nat, bars: nat, oversold: real, delta: real, sell: real)
    requires period > 0
    ensures RecoverySignal(closes, period, bars, oversold, delta, sell) != Crash
  {
    hide RsisUpTo, Rsi;
    if |closes| >= period + bars { RsisAreDefined(closes, period, |closes| - bars, bars); }
  }

  lemma {:induction false} RsisAreDefined(closes: seq<real>, period: nat, from: nat, n: nat)
    requires period > 0 && from + n <= |closes|
    ensures DivisionByZero !in RsisUpTo(closes, period, from, n)
  {
    hide Rsi;
    if n > 0 {
      RsisAreDefined(closes, period, from, n - 1);
      RsiIsDefined(closes[..from + n], period);
    }
  }

  // ----- the stateful filter

  /** `make_consecutive_days_filter`: the inner signal and the one-cell counter of the closure. */
  class ConsecutiveDaysFilter {
    const inner: Strategy
    const days: int
    var count: nat

    constructor (inner: Strategy, days: int)
      ensures this.inner == inner && this.days == days && count == 0
    {
      this.inner, this.days, this.count := inner, days, 0;
    }

    /** One call of the closure. If it was fresh, or was last called with yesterday's closes, it answers
        like the tree and remembers today's streak. */
    method Signal(closes: seq<real>) returns (v: Verdict)
      requires inner.Valid() && |closes| >= 2
      requires count == BuyStreak(inner, closes[..|closes| - 1])
      modifies this
      ensures v == Eval(Consecutive(inner, days), closes)
      ensures v != Crash ==> count == BuyStreak(inner, closes)
    {
      var answer := Eval(inner, closes);
      if answer == Crash { return Crash; }
      if answer == BUY {
        count := count + 1;
        if count >= days { return BUY; }
        return HOLD;
      }
      count := 0;
      return answer;
    }
  }

  /** `buys` holds on each of the last `n` days, all of them days the engine asked about. */
  ghost predicate EachDay(buys: seq<real> -> bool, n: nat, closes: seq<real>) {
    n < |closes| && forall m :: |closes| - n < m <= |closes| ==> buys(closes[..m])
  }

  ghost function Buys(inner: Strategy): seq<real> -> bool {
    (closes: seq<real>) => inner.Valid() && closes != [] && Eval(inner, closes) == BUY
  }

  /** The filter says BUY exactly when the inner signal has said BUY on each of the last `n` days. */
  lemma ConsecutiveBuysNeedARun(inner: Strategy, n: nat, closes: seq<real>)
    requires inner.Valid() && n > 0 && |closes| >= 2
    ensures Eval(Consecutive(inner, n), closes) == BUY <==> EachDay(Buys(inner), n, closes)
  {
    hide RsiSignal, BiasSignal, BollingerSignal, MacdSignal, KdSignal, CrossoverSignal, Vote, Count, Gate;
    hide MultiTimeframeSignal, AsymmetricSignal, RecoverySignal, MomentumSignal, EachDay, Buys;
    StreakIsRun(inner, n, closes);
  }

  lemma EachDayExtends(buys: seq<real> -> bool, n: nat, closes: seq<real>)
    requires n > 0 && closes != []
    ensures EachDay(buys, n, closes) <==> EachDay(buys, n - 1, closes[..|closes| - 1]) && buys(closes)
  {
    var prev := closes[..|closes| - 1];
    assert closes[..|closes|] == closes;
    assert forall m :: 0 <= m <= |prev| ==> prev[..m] == closes[..m];
  }

  lemma {:induction false} StreakIsRun(inner: Strategy, n: nat, closes: seq<real>)
    requires inner.Valid() && closes != []
    ensures BuyStreak(inner, closes) >= n <==> EachDay(Buys(inner), n, closes)
  {
    if n > 0 {
      EachDayExtends(Buys(inner), n, closes);
      if |closes| >= 2 { StreakIsRun(inner, n - 1, closes[..|closes| - 1]); }
    }
  }
}
