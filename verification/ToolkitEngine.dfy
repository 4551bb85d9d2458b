/** `run_single_backtest`: the engine with stop-loss and take-profit overrides.  A run is `None` once an order
    has divided by zero. */
module ToolkitEngine {
  import opened Drawdown
  import opened Ledger
  import opened Options
  import opened Reals
  import opened Reporting

  datatype Params = Params(rates: Rates, stopLoss: Option<real>, takeProfit: Option<real>)

  function Abs(x: real): real {
    if x < 0.0 then -x else x
  }

  /** Open profit of the position, in percent of its entry price. */
  function OpenProfit(b: Book, price: real): real
    requires b.buyPrice != 0.0
  {
    Change(b.buyPrice, price)
  }

  /** The signal's action unless a threshold is hit. */
  function Decide(p: Params, b: Book, price: real, action: Action): Action {
    if b.shares > 0 && b.buyPrice > 0.0 then
      var pnl := OpenProfit(b, price);
      if p.stopLoss.Some? && pnl <= -Abs(p.stopLoss.value) then Sell
      else if p.takeProfit.Some? && pnl >= Abs(p.takeProfit.value) then Sell
      else action
    else action
  }

  function Day(p: Params, b: Book, day: nat, price: real, action: Action): Option<Book> {
    var decision := Decide(p, b, price, action);
    if DividesByZero(p.rates, b, price, decision) then None else Some(Settle(p.rates, b, day, price, decision))
  }

  /** The book after `n` trading days (days 1 to n; day 0 is never traded). */
  function After(p: Params, closes: seq<real>, signal: Signal, n: nat): Option<Book>
    requires n == 0 || n < |closes|
  {
    if n == 0 then Some(Opening(p.rates))
    else
      match After(p, closes, signal, n - 1)
      case None => None
      case Some(b) => Day(p, b, n, closes[n], signal(closes[..n + 1]))
  }

  /** The book once the series is over and any open position is closed. */
  function Finished(p: Params, closes: seq<real>, signal: Signal): Option<Book>
    requires closes != []
  {
    var last := |closes| - 1;
    DaysConsistent(p, closes, signal, last);
    match After(p, closes, signal, last)
    case None => None
    case Some(b) => Some(ForceClose(p.rates, b, last, closes[last], true))
  }

  // ----- every run, every price series

  /** On every day of every run the cash is the capital plus what the log moved, the shares are the
      ones the log leaves open, and the log alternates. */
  lemma {:induction false} DaysConsistent(p: Params, closes: seq<real>, signal: Signal, n: nat)
    requires n < |closes|
    ensures var b := After(p, closes, signal, n);
            b.Some? ==> Consistent(p.rates, b.value) && Marked(b.value, n, closes[n])
  {
    if n > 0 {
      DaysConsistent(p, closes, signal, n - 1);
      var before := After(p, closes, signal, n - 1);
      hide Consistent, Decide, Execute;
      if After(p, closes, signal, n).Some? {
        var action := Decide(p, before.value, closes[n], signal(closes[..n + 1]));
        SettleKeepsConsistent(p.rates, before.value, n, closes[n], action);
      }
    }
  }

  /** The trade log alone explains the final equity, in two ways; buys and sales match one to one;
      nothing is left open. */
  lemma LogExplainsEquity(p: Params, closes: seq<real>, signal: Signal)
    requires closes != []
    ensures var f := Finished(p, closes, signal);
            f.Some? ==> ExplainedByLog(p.rates, f.value)
  {
    var last := |closes| - 1;
    DaysConsistent(p, closes, signal, last);
    if b :| Some(b) == After(p, closes, signal, last) { ClosingExplains(p.rates, b, last, closes[last]); }
  }

  /** With positive prices and sane rates no day divides by zero, ends in debt or is worthless. */
  lemma {:induction false} DaysSolvent(p: Params, closes: seq<real>, signal: Signal, n: nat)
    requires n < |closes| && Positive(closes) && p.rates.Sane()
    ensures var b := After(p, closes, signal, n);
            b.Some? && Solvent(b.value) && Positive(b.value.curve)
  {
    if n > 0 {
      DaysSolvent(p, closes, signal, n - 1);
      var b := After(p, closes, signal, n - 1).value;
      var action := Decide(p, b, closes[n], signal(closes[..n + 1]));
      SettleKeepsSolvent(p.rates, b, n, closes[n], action);
    }
  }

  lemma FinishedSolvent(p: Params, closes: seq<real>, signal: Signal)
    requires closes != [] && Positive(closes) && p.rates.Sane()
    ensures var f := Finished(p, closes, signal);
            f.Some? && f.value.cash > 0.0 && Positive(f.value.curve) && |f.value.curve| == |closes| - 1
  {
    var last := |closes| - 1;
    DaysConsistent(p, closes, signal, last);
    DaysSolvent(p, closes, signal, last);
    var b := After(p, closes, signal, last).value;
    ClosedCurveStaysPositive(p.rates, b, last, closes[last], true);
    if b.shares > 0 { ProceedsPositive(p.rates, closes[last], b.shares); }
  }

  /** On positive prices every position was bought at a positive price. */
  lemma {:induction false} HeldEntryPositive(p: Params, closes: seq<real>, signal: Signal, n: nat)
    requires n < |closes| && Positive(closes)
    ensures var b := After(p, closes, signal, n);
            b.Some? ==> b.value.shares >= 0 && (b.value.shares > 0 ==> b.value.buyPrice > 0.0)
  {
    if n > 0 { HeldEntryPositive(p, closes, signal, n - 1); }
  }

  /** The price is at least `pct` percent below the entry price; the sign of `pct` does not matter. */
  ghost predicate DownBy(entry: real, price: real, pct: real) {
    (entry - price) * 100.0 >= (if pct < 0.0 then -pct else pct) * entry
  }

  /** The price is at least `pct` percent above the entry price. */
  ghost predicate UpBy(entry: real, price: real, pct: real) {
    (price - entry) * 100.0 >= (if pct < 0.0 then -pct else pct) * entry
  }

  lemma ThresholdsAreMoves(b: Book, price: real, pct: real)
    requires b.buyPrice > 0.0
    ensures OpenProfit(b, price) <= -Abs(pct) <==> DownBy(b.buyPrice, price, pct)
    ensures OpenProfit(b, price) >= Abs(pct) <==> UpBy(b.buyPrice, price, pct)
  {
    ChangeAgainst(b.buyPrice, price, -Abs(pct));
    ChangeAgainst(b.buyPrice, price, Abs(pct));
    hide Change;
    var size := Abs(pct);
    assert -size * b.buyPrice == -(size * b.buyPrice);
  }

  /** A position carried past a day is strictly inside both thresholds: on positive prices every one, and on other
      prices every one bought at a positive price. */
  lemma {:induction false} CarriedPositionsAreInsideTheBands(p: Params, closes: seq<real>, signal: Signal, n: nat)
    requires n < |closes|
    requires p.stopLoss.Some? ==> p.stopLoss.value != 0.0
    requires p.takeProfit.Some? ==> p.takeProfit.value != 0.0
    ensures var b := After(p, closes, signal, n);
            b.Some? && b.value.shares > 0 && (Positive(closes) || b.value.buyPrice > 0.0) ==>
              && b.value.buyPrice > 0.0
              && (p.stopLoss.Some? ==> !DownBy(b.value.buyPrice, closes[n], p.stopLoss.value))
              && (p.takeProfit.Some? ==> !UpBy(b.value.buyPrice, closes[n], p.takeProfit.value))
  {
    if Positive(closes) { HeldEntryPositive(p, closes, signal, n); }
    if n > 0 {
      DaysConsistent(p, closes, signal, n - 1);
      if closes[n] > 0.0 { ChangeBounds(closes[n], closes[n]); }
      var b := After(p, closes, signal, n);
      hide DownBy, UpBy, OpenProfit, Abs, Settle;
      if b.Some? && b.value.buyPrice > 0.0 {
        if p.stopLoss.Some? { ThresholdsAreMoves(b.value, closes[n], p.stopLoss.value); }
        if p.takeProfit.Some? { ThresholdsAreMoves(b.value, closes[n], p.takeProfit.value); }
      }
    }
  }

  /** Two series that agree up to day n give the same book, or the same exception, up to day n: nothing looks
      ahead. */
  lemma {:induction false} NoLookAhead(p: Params, closes: seq<real>, other: seq<real>, signal: Signal, n: nat)
    requires n < |closes| && n < |other|
    requires closes[..n + 1] == other[..n + 1]
    ensures After(p, closes, signal, n) == After(p, other, signal, n)
  {
    if n > 0 {
      assert closes[..n] == closes[..n + 1][..n] == other[..n + 1][..n] == other[..n];
      assert closes[n] == closes[..n + 1][n] == other[..n + 1][n] == other[n];
      hide Day;
      NoLookAhead(p, closes, other, signal, n - 1);
    }
  }

  /** An exception ends the run. */
  lemma {:induction false} RaisedForGood(p: Params, closes: seq<real>, signal: Signal, i: nat, n: nat)
    requires i <= n < |closes| && After(p, closes, signal, i) == None
    ensures After(p, closes, signal, n) == None
  {
    hide Day;
    if i < n { RaisedForGood(p, closes, signal, i, n - 1); }
  }

  /** The curve holds one value a day: the cash of that day and its shares at that day's close. */
  lemma {:induction false} CurveIsWorth(p: Params, closes: seq<real>, signal: Signal, i: nat, n: nat, was: Book)
    requires 1 <= i <= n < |closes| && After(p, closes, signal, n).Some? && After(p, closes, signal, i) == Some(was)
    ensures var curve := After(p, closes, signal, n).value.curve;
            |curve| == n && curve[i - 1] == was.cash + was.shares as real * closes[i]
  {
    hide Decide, Consistent, Settle;
    DaysConsistent(p, closes, signal, n - 1);
    var b, now, price := After(p, closes, signal, n - 1).value, After(p, closes, signal, n).value, closes[n];
    SettleRecords(p.rates, b, n, price, Decide(p, b, price, signal(closes[..n + 1])), now);
    if i < n { CurveIsWorth(p, closes, signal, i, n - 1, was); }
  }

  /** Of the finished run too, up to the day before the last; the last value is the final cash. */
  lemma FinishedCurveIsWorth(p: Params, closes: seq<real>, signal: Signal, i: nat, was: Book)
    requires 1 <= i < |closes| && After(p, closes, signal, i) == Some(was)
    ensures var f := Finished(p, closes, signal);
            f.Some? ==>
              && |f.value.curve| == |closes| - 1
              && f.value.curve[i - 1] == if i < |closes| - 1 then was.cash + was.shares as real * closes[i]
                                         else f.value.cash
  {
    var last := |closes| - 1;
    hide After, Consistent, ForceClose, Marked;
    DaysConsistent(p, closes, signal, last);
    if b :| Some(b) == After(p, closes, signal, last) {
      CurveIsWorth(p, closes, signal, i, last, was);
      CloseRecords(p.rates, b, last, closes[last], true, Finished(p, closes, signal).value);
    }
  }

  // ----- the engine itself

  /** The threshold overrides. */
  method Override(p: Params, shares: int, buyPrice: real, price: real, signalled: Action) returns (action: Action)
    ensures forall b: Book :: b.shares == shares && b.buyPrice == buyPrice ==> action == Decide(p, b, price, signalled)
  {
    action := signalled;
    if shares > 0 && buyPrice > 0.0 {
      var pnl := Change(buyPrice, price);
      if p.stopLoss.Some? && pnl <= -Abs(p.stopLoss.value) {
        action := Sell;
      } else if p.takeProfit.Some? && pnl >= Abs(p.takeProfit.value) {
        action := Sell;
      }
    }
  }

  /** The body of the day loop. */
  method TradeDay(p: Params, cash: real, shares: int, buyPrice: real, trades: seq<Trade>, curve: seq<real>,
                  day: nat, price: real, signalled: Action)
    returns (raised: bool, cash': real, shares': int, buyPrice': real, trades': seq<Trade>, curve': seq<real>)
    ensures Day(p, Book(cash, shares, buyPrice, trades, curve), day, price, signalled)
         == if raised then None else Some(Book(cash', shares', buyPrice', trades', curve'))
  {
    var action := Override(p, shares, buyPrice, price, signalled);
    ghost var before := Book(cash, shares, buyPrice, trades, curve);
    assert action == Decide(p, before, price, signalled);
    curve' := curve;
    raised, cash', shares', buyPrice', trades' :=
      Order(p.rates, cash, shares, buyPrice, trades, day, price, action, before);
    if !raised {
      assert Execute(p.rates, before, day, price, action) == Book(cash', shares', buyPrice', trades', curve);
      curve' := curve + [Equity(cash', shares', price)];
    }
  }

  /** The day loop and the forced close, on local variables. */
  method TradeSeries(closes: seq<real>, signal: Signal, p: Params) returns (b: Option<Book>)
    requires closes != []
    ensures b == Finished(p, closes, signal)
  {
    var r, last := p.rates, |closes| - 1;
    var cash, shares, buyPrice := r.capital, 0, 0.0;
    var trades: seq<Trade>, curve: seq<real> := [], [];
    var raised := false;
    hide Day, ForceClose, Consistent;
    for i := 1 to |closes|
      invariant After(p, closes, signal, i - 1) == Some(Book(cash, shares, buyPrice, trades, curve))
    {
      raised, cash, shares, buyPrice, trades, curve :=
        TradeDay(p, cash, shares, buyPrice, trades, curve, i, closes[i], signal(closes[..i + 1]));
      if raised {
        RaisedForGood(p, closes, signal, i, last);
        return None;
      }
    }
    DaysConsistent(p, closes, signal, last);
    ghost var open := Book(cash, shares, buyPrice, trades, curve);
    cash, shares, trades, curve := CloseOut(r, cash, shares, trades, curve, last, closes[last], true, open);
    b := Some(Book(cash, shares, buyPrice, trades, curve));
  }

  /** One backtest: a report of exactly the finished book. */
  method RunSingleBacktest(closes: seq<real>, signal: Signal, p: Params) returns (res: Report)
    requires closes != [] && Positive(closes) && p.rates.Sane()
    ensures var f := Finished(p, closes, signal);
            f.Some? && Describes(res, p.rates, f.value) && res.tradingDays == |closes| - 1
  {
    FinishedSolvent(p, closes, signal);
    var b := TradeSeries(closes, signal, p);
    res := Summarize(p.rates, b.value);
  }
}
