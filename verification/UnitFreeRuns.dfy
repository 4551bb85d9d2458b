/** A whole backtest does not depend on the currency unit: signals (Strategies) and engine together. */
module UnitFreeRuns {
  import opened Indicators
  import opened Ledger
  import opened Options
  import opened Reals
  import opened Reporting
  import opened ToolkitEngine
  import D = Drawdown
  import S = Strategies

  /** A strategy as the engine's signal function.  The engine is only run on positive prices, where no
      strategy raises (PositivePricesNeverCrash), so the Hold below is never reached. */
  ghost function Answers(s: S.Strategy): Signal
    requires s.Valid()
  {
    (closes: seq<real>) =>
      if closes == [] then Hold
      else match S.Eval(s, closes) case Act(a) => a case Crash => Hold
  }

  function ScaleRates(c: real, r: Rates): Rates {
    r.(capital := Times(c, r.capital))
  }

  function ScaleParams(c: real, p: Params): Params {
    p.(rates := ScaleRates(c, p.rates))
  }

  function ScaleTrade(c: real, t: Trade): Trade {
    t.(price := Times(c, t.price))
  }

  function ScaleLog(c: real, log: seq<Trade>): seq<Trade> {
    seq(|log|, i requires 0 <= i < |log| => ScaleTrade(c, log[i]))
  }

  /** Same shares, same days; every amount of money in the other unit. */
  function ScaleBook(c: real, b: Book): Book {
    Book(Times(c, b.cash), b.shares, Times(c, b.buyPrice), ScaleLog(c, b.trades), Scale(c, b.curve))
  }

  function ScaleRun(c: real, b: Option<Book>): Option<Book> {
    match b case None => None case Some(book) => Some(ScaleBook(c, book))
  }

  /** The signal gives the same answer in the other unit on every prefix of the series. */
  ghost predicate UnitFree(signal: Signal, closes: seq<real>, c: real) {
    forall n :: 0 <= n <= |closes| ==> signal(Scale(c, closes[..n])) == signal(closes[..n])
  }

  lemma StrategiesAreUnitFree(s: S.Strategy, closes: seq<real>, c: real)
    requires s.Valid() && c > 0.0
    ensures UnitFree(Answers(s), closes, c)
  {
    forall n | 0 <= n <= |closes|
      ensures Answers(s)(Scale(c, closes[..n])) == Answers(s)(closes[..n])
    {
      if n > 0 { S.SignalsIgnoreScale(s, closes[..n], c); }
    }
  }

  lemma ScaleUnitCost(c: real, r: Rates, price: real)
    requires c > 0.0
    ensures UnitCost(ScaleRates(c, r), Times(c, price)) == Times(c, UnitCost(r, price))
    ensures UnitCost(ScaleRates(c, r), Times(c, price)) != 0.0 <==> UnitCost(r, price) != 0.0
  {
    var u := 1.0 + r.fee;
    assert c * price * u == c * (price * u);
    RatioIgnoresScale(c, price * u, price * u);
  }

  lemma ScaleLot(c: real, r: Rates, cash: real, price: real)
    requires c > 0.0 && UnitCost(r, price) != 0.0
    ensures UnitCost(ScaleRates(c, r), Times(c, price)) != 0.0
    ensures Lot(ScaleRates(c, r), Times(c, cash), Times(c, price)) == Lot(r, cash, price)
  {
    ScaleUnitCost(c, r, price);
    Regroup(c, cash, r.positionSize);
    assert Budget(ScaleRates(c, r), Times(c, cash)) == Times(c, Budget(r, cash));
    RatioIgnoresScale(c, Budget(r, cash), UnitCost(r, price));
    hide Times, Budget, UnitCost;
  }

  lemma Regroup(c: real, x: real, y: real)
    ensures Times(c, x) * y == Times(c, x * y)
  {
  }

  lemma ScaleAmounts(c: real, r: Rates, price: real, n: int)
    ensures Cost(ScaleRates(c, r), Times(c, price), n) == Times(c, Cost(r, price, n))
    ensures Proceeds(ScaleRates(c, r), Times(c, price), n) == Times(c, Proceeds(r, price, n))
  {
    var k, u, v := n as real, 1.0 + r.fee, 1.0 - r.fee - r.tax;
    assert k * (c * price) * u == c * (k * price * u);
    assert k * (c * price) * v == c * (k * price * v);
  }

  lemma SumOfTimes(c: real, x: real, y: real)
    ensures Times(c, x) + Times(c, y) == Times(c, x + y)
    ensures Times(c, x) - Times(c, y) == Times(c, x - y)
  {
  }

  lemma ScaleLogAppend(c: real, log: seq<Trade>, t: Trade)
    ensures ScaleLog(c, log + [t]) == ScaleLog(c, log) + [ScaleTrade(c, t)]
  {
  }

  lemma ScaleExecute(c: real, r: Rates, b: Book, day: nat, price: real, action: Action)
    requires c > 0.0
    ensures DividesByZero(ScaleRates(c, r), ScaleBook(c, b), Times(c, price), action)
       <==> DividesByZero(r, b, price, action)
    ensures !DividesByZero(r, b, price, action) ==>
              Execute(ScaleRates(c, r), ScaleBook(c, b), day, Times(c, price), action)
              == ScaleBook(c, Execute(r, b, day, price, action))
  {
    ScaleUnitCost(c, r, price);
    if UnitCost(r, price) != 0.0 { ScaleLot(c, r, b.cash, price); }
    hide Lot, Times, Cost, Proceeds, ScaleLog, UnitCost;
    if action == Buy && b.shares == 0 && UnitCost(r, price) != 0.0 {
      var n := Lot(r, b.cash, price);
      ScaleAmounts(c, r, price, n);
      SumOfTimes(c, b.cash, Cost(r, price, n));
      ScaleLogAppend(c, b.trades, Trade(day, BUY, price, n));
    } else if action == Sell && b.shares > 0 {
      ScaleAmounts(c, r, price, b.shares);
      SumOfTimes(c, b.cash, Proceeds(r, price, b.shares));
      ScaleLogAppend(c, b.trades, Trade(day, SELL, price, b.shares));
      assert Times(c, 0.0) == 0.0 by { ZeroIsZero(c); }
    }
  }

  lemma ZeroIsZero(c: real)
    ensures Times(c, 0.0) == 0.0
  {
  }

  lemma ScaleEquity(c: real, cash: real, shares: int, price: real)
    ensures Equity(Times(c, cash), shares, Times(c, price)) == Times(c, Equity(cash, shares, price))
  {
    assert shares as real * (c * price) == c * (shares as real * price);
  }

  lemma ScaleMark(c: real, b: Book, price: real)
    ensures MarkToMarket(ScaleBook(c, b), Times(c, price)) == ScaleBook(c, MarkToMarket(b, price))
  {
    ScaleEquity(c, b.cash, b.shares, price);
    hide Times, Equity;
    assert Scale(c, b.curve + [Equity(b.cash, b.shares, price)])
        == Scale(c, b.curve) + [Times(c, Equity(b.cash, b.shares, price))];
  }

  lemma ChangeIgnoresScale(c: real, from: real, to: real)
    requires c > 0.0 && from != 0.0
    ensures Times(c, from) != 0.0 && D.Change(Times(c, from), Times(c, to)) == D.Change(from, to)
  {
    SumOfTimes(c, to, from);
    RatioIgnoresScale(c, to - from, from);
  }

  lemma ScaleDecide(c: real, p: Params, b: Book, price: real, action: Action)
    requires c > 0.0
    ensures Decide(ScaleParams(c, p), ScaleBook(c, b), Times(c, price), action) == Decide(p, b, price, action)
  {
    OrderIgnoresScale(c, b.buyPrice, 0.0);
    ZeroIsZero(c);
    if b.buyPrice > 0.0 { ChangeIgnoresScale(c, b.buyPrice, price); }
    hide Times, D.Change, ScaleLog, Scale;
  }

  lemma ScaleDay(c: real, p: Params, b: Book, day: nat, price: real, said: Action)
    requires c > 0.0
    ensures Day(ScaleParams(c, p), ScaleBook(c, b), day, Times(c, price), said)
         == ScaleRun(c, Day(p, b, day, price, said))
  {
    var action := Decide(p, b, price, said);
    ScaleDecide(c, p, b, price, said);
    ScaleExecute(c, p.rates, b, day, price, action);
    hide Times, Execute, Decide, MarkToMarket, ScaleBook, DividesByZero;
    if !DividesByZero(p.rates, b, price, action) {
      ScaleMark(c, Execute(p.rates, b, day, price, action), price);
    }
  }

  /** Multiply every price and the starting capital by c > 0: every day's book is the same book in the
      other unit, so the trades have the same days, sides and share counts; and an exception stays one. */
  lemma {:induction false} RunsIgnoreScale(p: Params, closes: seq<real>, signal: Signal, c: real, n: nat)
    requires c > 0.0 && n < |closes| && UnitFree(signal, closes, c)
    ensures After(ScaleParams(c, p), Scale(c, closes), signal, n) == ScaleRun(c, After(p, closes, signal, n))
  {
    hide Times, Day;
    if n == 0 {
      ZeroIsZero(c);
      assert Scale(c, []) == [];
      assert ScaleLog(c, []) == [];
    } else {
      RunsIgnoreScale(p, closes, signal, c, n - 1);
      assert Scale(c, closes)[..n + 1] == Scale(c, closes[..n + 1]) by { ScaleSlice(c, closes, 0, n + 1); }
      var before := After(p, closes, signal, n - 1);
      hide ScaleBook, ScaleParams;
      if before.Some? { ScaleDay(c, p, before.value, n, closes[n], signal(closes[..n + 1])); }
    }
  }

  lemma ScaleForceClose(c: real, r: Rates, b: Book, day: nat, price: real)
    requires b.shares > 0 ==> |b.curve| > 0
    ensures ForceClose(ScaleRates(c, r), ScaleBook(c, b), day, Times(c, price), true)
         == ScaleBook(c, ForceClose(r, b, day, price, true))
  {
    ScaleAmounts(c, r, price, b.shares);
    SumOfTimes(c, b.cash, Proceeds(r, price, b.shares));
    ScaleLogAppend(c, b.trades, Trade(day, SELL_FORCE, price, b.shares));
    hide Times, Proceeds, ScaleLog;
    if b.shares > 0 {
      var last, cash := |b.curve| - 1, b.cash + Proceeds(r, price, b.shares);
      assert Scale(c, b.curve[last := cash]) == Scale(c, b.curve)[last := Times(c, cash)];
    }
  }

  lemma ScaleFinished(p: Params, closes: seq<real>, signal: Signal, c: real)
    requires c > 0.0 && closes != [] && UnitFree(signal, closes, c)
    ensures Finished(ScaleParams(c, p), Scale(c, closes), signal) == ScaleRun(c, Finished(p, closes, signal))
  {
    var last := |closes| - 1;
    RunsIgnoreScale(p, closes, signal, c, last);
    DaysConsistent(p, closes, signal, last);
    hide After, ForceClose, Times, Consistent, ScaleBook;
    var b := After(p, closes, signal, last);
    if b.Some? { ScaleForceClose(c, p.rates, b.value, last, closes[last]); }
  }

  lemma ScaleKeepsPositive(c: real, s: seq<real>)
    requires c > 0.0 && Positive(s)
    ensures Positive(Scale(c, s))
  {
    forall i | 0 <= i < |s| ensures Scale(c, s)[i] > 0.0 {
      OrderIgnoresScale(c, s[i], 0.0);
      ZeroIsZero(c);
    }
  }

  lemma DrawdownIgnoresScale(c: real, curve: seq<real>, dd: real)
    requires c > 0.0 && Positive(curve) && D.IsMaxDrawdown(curve, dd)
    ensures Positive(Scale(c, curve)) && D.IsMaxDrawdown(Scale(c, curve), dd)
  {
    var scaled := Scale(c, curve);
    ScaleKeepsPositive(c, curve);
    forall i, j | 0 <= i <= j < |curve| ensures D.Change(scaled[i], scaled[j]) == D.Change(curve[i], curve[j]) {
      ChangeIgnoresScale(c, curve[i], curve[j]);
    }
    hide D.Change, Times;
    if curve != [] {
      var i, j :| 0 <= i <= j < |curve| && dd == D.Change(curve[i], curve[j]);
      assert dd == D.Change(scaled[i], scaled[j]);
    }
  }

  // ----- win rate and profit factor

  function ScaleStats(c: real, s: Stats): Stats {
    Stats(s.wins, s.losses, Times(c, s.profit), Times(c, s.loss))
  }

  lemma {:induction false} ScaleBuysAndSales(c: real, log: seq<Trade>)
    ensures BuysOf(ScaleLog(c, log)) == ScaleLog(c, BuysOf(log))
    ensures SalesOf(ScaleLog(c, log)) == ScaleLog(c, SalesOf(log))
  {
    if log != [] {
      var n := |log| - 1;
      ScaleBuysAndSales(c, log[..n]);
      assert ScaleLog(c, log)[..n] == ScaleLog(c, log[..n]);
      hide ScaleTrade;
      if log[n].side == BUY {
        ScaleLogAppend(c, BuysOf(log[..n]), log[n]);
      } else {
        ScaleLogAppend(c, SalesOf(log[..n]), log[n]);
      }
    }
  }

  lemma ScaleEdge(c: real, buy: Trade, sale: Trade)
    ensures Edge(ScaleTrade(c, buy), ScaleTrade(c, sale)) == Times(c, Edge(buy, sale))
  {
    SumOfTimes(c, sale.price, buy.price);
    Regroup(c, sale.price - buy.price, sale.shares as real);
  }

  lemma ScaleScore(c: real, s: Stats, buy: Trade, sale: Trade)
    requires c > 0.0
    ensures Score(ScaleStats(c, s), ScaleTrade(c, buy), ScaleTrade(c, sale)) == ScaleStats(c, Score(s, buy, sale))
  {
    ScaleEdge(c, buy, sale);
    var pnl := Edge(buy, sale);
    OrderIgnoresScale(c, pnl, 0.0);
    ZeroIsZero(c);
    SumOfTimes(c, s.profit, pnl);
    SumOfTimes(c, s.loss, pnl);
    hide Times, Edge;
  }

  lemma {:induction false} ScaleTally(c: real, sales: seq<Trade>, buys: seq<Trade>)
    requires c > 0.0
    ensures Tally(ScaleLog(c, sales), ScaleLog(c, buys)) == ScaleStats(c, Tally(sales, buys))
  {
    hide Times, Score, ScaleTrade;
    if sales == [] {
      ZeroIsZero(c);
    } else {
      var j := |sales| - 1;
      ScaleTally(c, sales[..j], buys);
      assert ScaleLog(c, sales)[..j] == ScaleLog(c, sales[..j]);
      if j < |buys| { ScaleScore(c, Tally(sales[..j], buys), buys[j], sales[j]); }
    }
  }

  lemma ProfitFactorIgnoresScale(c: real, s: Stats)
    requires c > 0.0
    ensures ProfitFactor(ScaleStats(c, s)) == ProfitFactor(s)
  {
    ZeroIsZero(c);
    OrderIgnoresScale(c, s.loss, 0.0);
    OrderIgnoresScale(c, s.profit, 0.0);
    RatioIgnoresScale(c, s.profit, s.loss);
    hide Times;
  }

  /** The scored log is the same in every unit: as many wins and losses, the same win rate and profit factor. */
  lemma StatisticsIgnoreScale(c: real, log: seq<Trade>)
    requires c > 0.0
    ensures var s, s' := Tally(SalesOf(log), BuysOf(log)), Tally(SalesOf(ScaleLog(c, log)), BuysOf(ScaleLog(c, log)));
            && s'.wins == s.wins && s'.losses == s.losses && |SalesOf(ScaleLog(c, log))| == |SalesOf(log)|
            && WinRate(s', |SalesOf(ScaleLog(c, log))|) == WinRate(s, |SalesOf(log)|)
            && ProfitFactor(s') == ProfitFactor(s)
  {
    ScaleBuysAndSales(c, log);
    ScaleTally(c, SalesOf(log), BuysOf(log));
    ProfitFactorIgnoresScale(c, Tally(SalesOf(log), BuysOf(log)));
    hide ProfitFactor, Tally, SalesOf, BuysOf, Times;
  }

  // ----- the whole report

  /** A strategy's backtest is independent of the currency unit: with every price and the starting
      capital multiplied by c > 0 the finished book is the same book in the other unit, and every reported
      percentage and count is the same. */
  lemma BacktestsIgnoreScale(p: Params, closes: seq<real>, s: S.Strategy, c: real)
    requires s.Valid() && c > 0.0 && closes != [] && Positive(closes) && p.rates.Sane()
    ensures var f, f' := Finished(p, closes, Answers(s)), Finished(ScaleParams(c, p), Scale(c, closes), Answers(s));
            && f.Some? && f' == Some(ScaleBook(c, f.value))
            && forall res :: Describes(res, p.rates, f.value) ==>
                 Describes(res.(trades := f'.value.trades, stats := ScaleStats(c, res.stats)),
                           ScaleRates(c, p.rates), f'.value)
  {
    StrategiesAreUnitFree(s, closes, c);
    ScaleFinished(p, closes, Answers(s), c);
    FinishedSolvent(p, closes, Answers(s));
    var f := Finished(p, closes, Answers(s)).value;
    hide Finished, Answers;
    forall res | Describes(res, p.rates, f)
      ensures Describes(res.(trades := ScaleBook(c, f).trades, stats := ScaleStats(c, res.stats)),
                        ScaleRates(c, p.rates), ScaleBook(c, f))
    {
      ReportIgnoresScale(c, p.rates, f, res);
    }
  }

  lemma ReportIgnoresScale(c: real, r: Rates, f: Book, res: Report)
    requires c > 0.0 && Describes(res, r, f)
    ensures Describes(res.(trades := ScaleBook(c, f).trades, stats := ScaleStats(c, res.stats)),
                      ScaleRates(c, r), ScaleBook(c, f))
  {
    ScaleBuysAndSales(c, f.trades);
    ScaleTally(c, SalesOf(f.trades), BuysOf(f.trades));
    StatisticsIgnoreScale(c, f.trades);
    DrawdownIgnoresScale(c, f.curve, res.maxDrawdown);
    ChangeIgnoresScale(c, r.capital, FinalEquity(r, f));
    hide Times, Tally, SalesOf, BuysOf, ProfitFactor, D.IsMaxDrawdown, D.Change, Positive;
    assert FinalEquity(ScaleRates(c, r), ScaleBook(c, f)) == Times(c, FinalEquity(r, f));
  }
}
