/** `run_backtest` of the first script: no thresholds, and a forced close that moves the money without
    being logged.  (Its loop does not reset `buy_price` on a sale; nothing there reads it.) */
module FirstScriptEngine {
  import opened Ledger
  import opened Options
  import opened Reals
  import opened Reporting
  import opened ToolkitEngine
  import opened TradeTiming
  import ToolkitTiming

  function Plain(r: Rates): Params {
    Params(r, None, None)
  }

  function FinishedUnlogged(r: Rates, closes: seq<real>, signal: Signal): Option<Book>
    requires closes != []
  {
    var last := |closes| - 1;
    DaysConsistent(Plain(r), closes, signal, last);
    match After(Plain(r), closes, signal, last)
    case None => None
    case Some(b) => Some(ForceClose(r, b, last, closes[last], false))
  }

  /** Buys exceed sells by one exactly when a position was open at the end, otherwise they match; the
      final equity is what the log says plus the proceeds of that unlogged close. */
  lemma LogMissesForcedClose(r: Rates, closes: seq<real>, signal: Signal)
    requires closes != []
    ensures var b, f := After(Plain(r), closes, signal, |closes| - 1), FinishedUnlogged(r, closes, signal);
            f.Some? ==>
              && f.value.shares == 0 && Alternates(f.value.trades) && b.value.shares == OpenShares(f.value.trades)
              && |BuysOf(f.value.trades)| - |SalesOf(f.value.trades)| == (if b.value.shares > 0 then 1 else 0)
              && FinalEquity(r, f.value) == r.capital + CashFlow(r, f.value.trades)
                                            + Proceeds(r, closes[|closes| - 1], b.value.shares)
  {
    var last := |closes| - 1;
    DaysConsistent(Plain(r), closes, signal, last);
    if b :| Some(b) == After(Plain(r), closes, signal, last) {
      UnloggedCloseMissesProceeds(r, b, last, closes[last]);
      PairsLineUp(b.trades);
    }
  }

  /** So the log explains the final equity if and only if the forced close brought nothing in, which on positive
      prices with sane rates means that nothing was held at the end. */
  lemma LogExplainsEquityIffFlat(r: Rates, closes: seq<real>, signal: Signal)
    requires closes != []
    ensures var b, f := After(Plain(r), closes, signal, |closes| - 1), FinishedUnlogged(r, closes, signal);
            b.Some? && f.Some? ==>
              (FinalEquity(r, f.value) == r.capital + CashFlow(r, f.value.trades)
               <==> Proceeds(r, closes[|closes| - 1], b.value.shares) == 0.0)
    ensures Positive(closes) && r.Sane() ==>
              var b := After(Plain(r), closes, signal, |closes| - 1);
              b.Some? && FinishedUnlogged(r, closes, signal).Some?
              && (Proceeds(r, closes[|closes| - 1], b.value.shares) == 0.0 <==> b.value.shares == 0)
  {
    var last := |closes| - 1;
    LogMissesForcedClose(r, closes, signal);
    if Positive(closes) && r.Sane() {
      DaysSolvent(Plain(r), closes, signal, last);
      ProceedsVanishIffNothingSold(r, closes[last], After(Plain(r), closes, signal, last).value.shares);
    }
    hide CashFlow, Proceeds, FinalEquity, After;
  }

  ghost function AlwaysBuy(): Signal {
    (closes: seq<real>) => Buy
  }

  /** Two days and a signal that always buys: if the capital pays for a share, the log does not explain the
      equity. */
  lemma BuyingLastIsUnexplained(r: Rates, first: real, price: real)
    requires first > 0.0 && price > 0.0 && r.Sane() && UnitCost(r, price) != 0.0 && Lot(r, r.capital, price) > 0
    ensures var f := FinishedUnlogged(r, [first, price], AlwaysBuy());
            f.Some? && FinalEquity(r, f.value) != r.capital + CashFlow(r, f.value.trades)
  {
    var closes := [first, price];
    FirstDayBuys(r, price);
    LogExplainsEquityIffFlat(r, closes, AlwaysBuy());
    hide Day, FinishedUnlogged, CashFlow, Proceeds, FinalEquity, UnitCost, Lot;
    assert After(Plain(r), closes, AlwaysBuy(), 0) == Some(Opening(r));
    assert After(Plain(r), closes, AlwaysBuy(), 1) == Day(Plain(r), Opening(r), 1, price, Buy);
  }

  lemma FirstDayBuys(r: Rates, price: real)
    requires UnitCost(r, price) != 0.0 && Lot(r, r.capital, price) > 0
    ensures var b := Day(Plain(r), Opening(r), 1, price, Buy);
            b.Some? && b.value.shares == Lot(r, r.capital, price)
  {
  }

  /** Such a run: a capital of 100, two closes of 1, no charges. */
  lemma OpenPositionIsUnexplained(r: Rates)
    requires r == Rates(100.0, 1.0, 0.0, 0.0)
    ensures Unexplained(r)
  {
    hide Unexplained, Lot;
    CapitalInShares(r);
    FreeTradesAreSane(r);
    assert r.capital == 100.0;
    OneShareEach(r);
  }

  ghost predicate Unexplained(r: Rates) {
    var f := FinishedUnlogged(r, [1.0, 1.0], AlwaysBuy());
    f.Some? && FinalEquity(r, f.value) != r.capital + CashFlow(r, f.value.trades)
  }

  lemma OneShareEach(r: Rates)
    requires r.Sane() && r.capital == 100.0 && UnitCost(r, 1.0) == 1.0 && Budget(r, 100.0) == 100.0
    ensures Unexplained(r)
  {
    HundredShares(r);
    hide UnitCost, Budget, Lot, FinishedUnlogged, FinalEquity, CashFlow;
    BuyingLastIsUnexplained(r, 1.0, 1.0);
  }

  lemma CapitalInShares(r: Rates)
    requires r == Rates(100.0, 1.0, 0.0, 0.0)
    ensures UnitCost(r, 1.0) == 1.0 && Budget(r, 100.0) == 100.0
  {
  }

  lemma FreeTradesAreSane(r: Rates)
    requires r == Rates(100.0, 1.0, 0.0, 0.0)
    ensures r.Sane()
  {
  }

  lemma HundredShares(r: Rates)
    requires UnitCost(r, 1.0) == 1.0 && Budget(r, 100.0) == 100.0
    ensures Lot(r, 100.0, 1.0) == 100
  {
    assert Truncate(100.0) == 100;
    hide UnitCost, Budget, Truncate;
    assert Budget(r, 100.0) / UnitCost(r, 1.0) == 100.0;
  }

  lemma FinishedSolvent(r: Rates, closes: seq<real>, signal: Signal)
    requires closes != [] && Positive(closes) && r.Sane()
    ensures var f := FinishedUnlogged(r, closes, signal); f.Some? && Positive(f.value.curve)
  {
    var last := |closes| - 1;
    DaysConsistent(Plain(r), closes, signal, last);
    DaysSolvent(Plain(r), closes, signal, last);
    ClosedCurveStaysPositive(r, After(Plain(r), closes, signal, last).value, last, closes[last], false);
  }

  /** Every BUY takes as many whole shares as the cash set aside pays for. */
  lemma BuysFillBudget(r: Rates, closes: seq<real>, signal: Signal)
    requires closes != []
    ensures var f := FinishedUnlogged(r, closes, signal); f.Some? ==> AllFilled(r, f.value.trades)
  {
    var last := |closes| - 1;
    ToolkitTiming.DaysFill(Plain(r), closes, signal, last);
    DaysConsistent(Plain(r), closes, signal, last);
    if b :| Some(b) == After(Plain(r), closes, signal, last) { CloseFills(r, b, last, closes[last], false); }
    hide AllFilled, Consistent;
  }

  /** The curve holds each day's cash and its shares at that day's close, and the final cash on the last day. */
  lemma FinishedCurveIsWorth(r: Rates, closes: seq<real>, signal: Signal, i: nat, was: Book)
    requires 1 <= i < |closes| && After(Plain(r), closes, signal, i) == Some(was)
    ensures var f := FinishedUnlogged(r, closes, signal);
            f.Some? ==>
              && |f.value.curve| == |closes| - 1
              && f.value.curve[i - 1] == if i < |closes| - 1 then was.cash + was.shares as real * closes[i]
                                         else f.value.cash
  {
    var last := |closes| - 1;
    hide After, Consistent, ForceClose, Marked;
    DaysConsistent(Plain(r), closes, signal, last);
    if b :| Some(b) == After(Plain(r), closes, signal, last) {
      CurveIsWorth(Plain(r), closes, signal, i, last, was);
      CloseRecords(r, b, last, closes[last], false, FinishedUnlogged(r, closes, signal).value);
    }
  }

  /** The day loop, and the close without a log entry. */
  method TradeSeries(closes: seq<real>, signal: Signal, r: Rates) returns (b: Option<Book>)
    requires closes != []
    ensures b == FinishedUnlogged(r, closes, signal)
  {
    var last := |closes| - 1;
    var cash, shares, buyPrice := r.capital, 0, 0.0;
    var trades: seq<Trade>, curve: seq<real> := [], [];
    var raised := false;
    hide Day, ForceClose, Consistent;
    for i := 1 to |closes|
      invariant After(Plain(r), closes, signal, i - 1) == Some(Book(cash, shares, buyPrice, trades, curve))
    {
      raised, cash, shares, buyPrice, trades, curve :=
        TradeDay(Plain(r), cash, shares, buyPrice, trades, curve, i, closes[i], signal(closes[..i + 1]));
      if raised {
        RaisedForGood(Plain(r), closes, signal, i, last);
        return None;
      }
    }
    DaysConsistent(Plain(r), closes, signal, last);
    ghost var open := Book(cash, shares, buyPrice, trades, curve);
    cash, shares, trades, curve := CloseOut(r, cash, shares, trades, curve, last, closes[last], false, open);
    b := Some(Book(cash, shares, buyPrice, trades, curve));
  }

  /** The whole run: a report of exactly the finished book. */
  method RunBacktest(closes: seq<real>, signal: Signal, r: Rates) returns (res: Report)
    requires closes != [] && Positive(closes) && r.Sane()
    ensures var f := FinishedUnlogged(r, closes, signal); f.Some? && Describes(res, r, f.value)
  {
    FinishedSolvent(r, closes, signal);
    var b := TradeSeries(closes, signal, r);
    res := Summarize(r, b.value);
  }
}
