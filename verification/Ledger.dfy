/** The money side shared by the three backtest engines: what one BUY or SELL does to the book,
    what the forced close does, and what the trade log says about the money.

    Python floats are modelled as `real`.  Dates are day indices into the price series, and the
    free-text `reason` of a trade is not modelled. */
module Ledger {
  import opened Reals

  datatype Action = Buy | Sell | Hold

  datatype Side = BUY | SELL | SELL_FORCE

  datatype Trade = Trade(day: nat, side: Side, price: real, shares: int)

  /** The rates every engine takes. */
  datatype Rates = Rates(capital: real, positionSize: real, fee: real, tax: real)
  {
    /** Positive capital, a position size in [0, 1], and charges below the traded amount. */
    ghost predicate Sane() {
      && capital > 0.0
      && 0.0 <= positionSize <= 1.0
      && 0.0 <= fee && 0.0 <= tax && fee + tax < 1.0
    }
  }

  /** The mutable part of a run: the locals `cash`, `shares`, `buy_price`, `trades`, `equity_curve`. */
  datatype Book = Book(cash: real, shares: int, buyPrice: real, trades: seq<Trade>, curve: seq<real>)

  /** A decision function: it sees the closes up to and including today. */
  type Signal = seq<real> -> Action

  function Opening(r: Rates): Book {
    Book(r.capital, 0, 0.0, [], [])
  }

  /** Python's `int(x)`: truncation toward zero. */
  function Truncate(x: real): int {
    if x >= 0.0 then x.Floor else -((-x).Floor)
  }

  // ----- one day

  /** What one share costs, fee included. */
  function UnitCost(r: Rates, price: real): real {
    price * (1.0 + r.fee)
  }

  function Budget(r: Rates, cash: real): real {
    cash * r.positionSize
  }

  /** How many whole shares the budget buys. */
  function Lot(r: Rates, cash: real, price: real): int
    requires UnitCost(r, price) != 0.0
  {
    Truncate(Budget(r, cash) / UnitCost(r, price))
  }

  function Cost(r: Rates, price: real, n: int): real {
    n as real * price * (1.0 + r.fee)
  }

  function Proceeds(r: Rates, price: real, n: int): real {
    n as real * price * (1.0 - r.fee - r.tax)
  }

  function Bought(r: Rates, b: Book, day: nat, price: real, n: int): Book {
    Book(b.cash - Cost(r, price, n), n, price, b.trades + [Trade(day, BUY, price, n)], b.curve)
  }

  function Sold(r: Rates, b: Book, day: nat, price: real): Book {
    Book(b.cash + Proceeds(r, price, b.shares), 0, 0.0, b.trades + [Trade(day, SELL, price, b.shares)], b.curve)
  }

  /** The BUY branch is entered with shares that cost nothing: Python raises ZeroDivisionError. */
  predicate DividesByZero(r: Rates, b: Book, price: real, action: Action) {
    action == Buy && b.shares == 0 && UnitCost(r, price) == 0.0
  }

  lemma PositivePriceCosts(r: Rates, price: real)
    requires r.Sane() && price > 0.0
    ensures UnitCost(r, price) > 0.0
  {
    assert price * (1.0 + r.fee) == price + price * r.fee;
    assert price * r.fee >= 0.0;
  }

  /** Acts on the day's final decision, without recording equity. */
  function Execute(r: Rates, b: Book, day: nat, price: real, action: Action): Book
    requires !DividesByZero(r, b, price, action)
  {
    if action == Buy && b.shares == 0 then
      var n := Lot(r, b.cash, price);
      if n > 0 then Bought(r, b, day, price, n) else b
    else if action == Sell && b.shares > 0 then Sold(r, b, day, price)
    else b
  }

  /** The BUY / SELL branches of the day loop, on the engines' local variables. */
  method Order(r: Rates, cash: real, shares: int, buyPrice: real, trades: seq<Trade>,
               day: nat, price: real, action: Action, ghost b: Book)
    returns (raised: bool, cash': real, shares': int, buyPrice': real, trades': seq<Trade>)
    requires b == Book(cash, shares, buyPrice, trades, b.curve)
    ensures raised == DividesByZero(r, b, price, action)
    ensures !raised ==> Book(cash', shares', buyPrice', trades', b.curve) == Execute(r, b, day, price, action)
  {
    raised, cash', shares', buyPrice', trades' := false, cash, shares, buyPrice, trades;
    if action == Buy && shares == 0 {
      if UnitCost(r, price) == 0.0 {
        raised := true;
        return;
      }
      var lot := Lot(r, cash, price);
      if lot > 0 {
        cash' := cash - Cost(r, price, lot);
        shares', buyPrice' := lot, price;
        trades' := trades + [Trade(day, BUY, price, lot)];
      }
    } else if action == Sell && shares > 0 {
      cash' := cash + Proceeds(r, price, shares);
      trades' := trades + [Trade(day, SELL, price, shares)];
      shares', buyPrice' := 0, 0.0;
    }
  }

  function Equity(cash: real, shares: int, price: real): real {
    cash + shares as real * price
  }

  function MarkToMarket(b: Book, price: real): Book {
    b.(curve := b.curve + [Equity(b.cash, b.shares, price)])
  }

  /** The close at the end of the series; `logged` is false in the first script only. */
  function ForceClose(r: Rates, b: Book, day: nat, price: real, logged: bool): Book
    requires b.shares > 0 ==> |b.curve| > 0
  {
    if b.shares > 0 then
      var cash := b.cash + Proceeds(r, price, b.shares);
      b.(cash := cash,
         shares := 0,
         trades := if logged then b.trades + [Trade(day, SELL_FORCE, price, b.shares)] else b.trades,
         curve := b.curve[|b.curve| - 1 := cash])
    else b
  }

  /** The forced close on the engines' local variables. */
  method CloseOut(r: Rates, cash: real, shares: int, trades: seq<Trade>, curve: seq<real>,
                  day: nat, price: real, logged: bool, ghost b: Book)
    returns (cash': real, shares': int, trades': seq<Trade>, curve': seq<real>)
    requires b == Book(cash, shares, b.buyPrice, trades, curve)
    requires shares > 0 ==> |curve| > 0
    ensures Book(cash', shares', b.buyPrice, trades', curve') == ForceClose(r, b, day, price, logged)
  {
    cash', shares', trades', curve' := cash, shares, trades, curve;
    if shares > 0 {
      cash' := cash + Proceeds(r, price, shares);
      if logged { trades' := trades + [Trade(day, SELL_FORCE, price, shares)]; }
      shares' := 0;
      curve' := curve[|curve| - 1 := cash'];
    }
  }

  function FinalEquity(r: Rates, b: Book): real {
    if |b.curve| > 0 then b.curve[|b.curve| - 1] else r.capital
  }

  // ----- what the log says

  ghost predicate IsSale(t: Trade) { t.side != BUY }

  /** BUY, SELL, BUY, SELL, ... where each sale sells exactly what the buy before it bought. */
  ghost predicate Alternates(log: seq<Trade>) {
    && (forall k :: 0 <= k < |log| ==> log[k].shares > 0 && (IsSale(log[k]) <==> k % 2 == 1))
    && (forall k :: 0 < k < |log| && k % 2 == 1 ==> log[k].shares == log[k - 1].shares)
  }

  /** The shares the log leaves open. */
  ghost function OpenShares(log: seq<Trade>): int {
    if |log| % 2 == 1 then log[|log| - 1].shares else 0
  }

  /** The day the open position was bought: that of the last log entry. */
  ghost function EntryDay(b: Book): nat {
    if b.trades == [] then 0 else b.trades[|b.trades| - 1].day
  }

  /** Cash one log entry moves: a BUY pays price plus fee, a sale earns price less fee and tax. */
  ghost function Moves(r: Rates, t: Trade): real {
    if IsSale(t) then Proceeds(r, t.price, t.shares) else -Cost(r, t.price, t.shares)
  }

  ghost function CashFlow(r: Rates, log: seq<Trade>): real {
    if |log| == 0 then 0.0 else CashFlow(r, log[..|log| - 1]) + Moves(r, log[|log| - 1])
  }

  /** The book agrees with its own log. */
  ghost predicate Consistent(r: Rates, b: Book) {
    && Alternates(b.trades)
    && b.shares == OpenShares(b.trades)
    && (b.shares > 0 ==> b.buyPrice == b.trades[|b.trades| - 1].price)
    && b.cash == r.capital + CashFlow(r, b.trades)
  }

  lemma AppendMove(r: Rates, log: seq<Trade>, t: Trade)
    ensures CashFlow(r, log + [t]) == CashFlow(r, log) + Moves(r, t)
  {
    assert (log + [t])[..|log|] == log;
  }

  lemma AppendAlternates(log: seq<Trade>, t: Trade)
    requires Alternates(log) && t.shares > 0
    requires if IsSale(t) then OpenShares(log) == t.shares else OpenShares(log) == 0
    ensures Alternates(log + [t])
    ensures OpenShares(log + [t]) == if IsSale(t) then 0 else t.shares
  {
  }

  lemma ExecuteKeepsConsistent(r: Rates, b: Book, day: nat, price: real, action: Action)
    requires !DividesByZero(r, b, price, action)
    requires Consistent(r, b)
    ensures Consistent(r, Execute(r, b, day, price, action))
  {
    var b' := Execute(r, b, day, price, action);
    if b' != b {
      var t := b'.trades[|b.trades|];
      AppendMove(r, b.trades, t);
      AppendAlternates(b.trades, t);
    }
  }

  /** Cash is never negative and the book is worth something. */
  ghost predicate Solvent(b: Book) {
    b.cash >= 0.0 && b.shares >= 0 && (b.cash > 0.0 || b.shares > 0)
  }

  lemma ExecuteKeepsSolvent(r: Rates, b: Book, day: nat, price: real, action: Action)
    requires r.Sane() && price > 0.0 && Solvent(b)
    ensures !DividesByZero(r, b, price, action) && Solvent(Execute(r, b, day, price, action))
  {
    PositivePriceCosts(r, price);
    if action == Buy && b.shares == 0 {
      LotIsAffordable(r, b.cash, price);
    } else if action == Sell && b.shares > 0 {
      ProceedsPositive(r, price, b.shares);
    }
  }

  lemma ProceedsPositive(r: Rates, price: real, n: int)
    requires r.Sane() && price > 0.0 && n > 0
    ensures Proceeds(r, price, n) > 0.0
  {
    var gross, kept := n as real * price, 1.0 - r.fee - r.tax;
    MulPositive(n as real, price);
    MulPositive(gross, kept);
    assert Proceeds(r, price, n) == gross * kept;
  }

  lemma ProceedsVanishIffNothingSold(r: Rates, price: real, n: int)
    requires r.Sane() && price > 0.0 && n >= 0
    ensures Proceeds(r, price, n) == 0.0 <==> n == 0
  {
    if n > 0 { ProceedsPositive(r, price, n); }
  }

  lemma LotIsAffordable(r: Rates, cash: real, price: real)
    requires r.Sane() && price > 0.0 && cash >= 0.0
    ensures UnitCost(r, price) > 0.0 && Lot(r, cash, price) >= 0
    ensures Cost(r, price, Lot(r, cash, price)) <= cash
  {
    PositivePriceCosts(r, price);
    var unit := price * (1.0 + r.fee);
    BudgetCoversCost(cash, r.positionSize, unit);
    var n := Lot(r, cash, price) as real;
    assert n * price * (1.0 + r.fee) == n * unit;
  }

  lemma BudgetCoversCost(cash: real, size: real, unit: real)
    requires cash >= 0.0 && 0.0 <= size <= 1.0 && unit > 0.0
    ensures Truncate(cash * size / unit) >= 0
    ensures Truncate(cash * size / unit) as real * unit <= cash
  {
    var invest := cash * size;
    assert 0.0 <= invest <= cash;
    var n := Truncate(invest / unit);
    assert n as real <= invest / unit;
    assert n as real * unit <= invest / unit * unit;
  }

  // ----- win/loss statistics

  datatype Stats = Stats(wins: nat, losses: nat, profit: real, loss: real)

  function BuysOf(log: seq<Trade>): seq<Trade> {
    if log == [] then [] else
    BuysOf(log[..|log| - 1]) + if log[|log| - 1].side == BUY then [log[|log| - 1]] else []
  }

  function SalesOf(log: seq<Trade>): seq<Trade> {
    if log == [] then [] else
    SalesOf(log[..|log| - 1]) + if log[|log| - 1].side != BUY then [log[|log| - 1]] else []
  }

  /** In an alternating log the j-th sale really closes the j-th buy. */
  lemma {:induction false} PairsLineUp(log: seq<Trade>)
    requires Alternates(log)
    ensures |BuysOf(log)| == |log| - |log| / 2 && |SalesOf(log)| == |log| / 2
    ensures forall j :: 0 <= j < |BuysOf(log)| ==> BuysOf(log)[j] == log[j + j]
    ensures forall j :: 0 <= j < |SalesOf(log)| ==> SalesOf(log)[j] == log[j + j + 1]
  {
    if log != [] {
      var n := |log| - 1;
      var rest := log[..n];
      PairsLineUp(rest);
      assert IsSale(log[n]) <==> n % 2 == 1;
    }
  }

  /** Price movement between a buy and a sale, on the shares sold. */
  function Edge(buy: Trade, sale: Trade): real {
    (sale.price - buy.price) * sale.shares as real
  }

  /** One sale compared with the buy in the same position; a sale without a buy is skipped. */
  function Score(s: Stats, buy: Trade, sale: Trade): Stats {
    var pnl := Edge(buy, sale);
    if pnl > 0.0 then s.(wins := s.wins + 1, profit := s.profit + pnl)
    else s.(losses := s.losses + 1, loss := s.loss - pnl)
  }

  function Tally(sales: seq<Trade>, buys: seq<Trade>): Stats {
    if sales == [] then Stats(0, 0, 0.0, 0.0)
    else
      var j := |sales| - 1;
      var before := Tally(sales[..j], buys);
      if j < |buys| then Score(before, buys[j], sales[j]) else before
  }

  /** The two comprehensions and the scoring loop that follow every run. */
  method WinLoss(log: seq<Trade>) returns (s: Stats, count: nat)
    ensures s == Tally(SalesOf(log), BuysOf(log)) && count == |SalesOf(log)|
  {
    var sales, buys := [], [];
    for i := 0 to |log|
      invariant sales == SalesOf(log[..i]) && buys == BuysOf(log[..i])
    {
      assert log[..i + 1][..i] == log[..i];
      if log[i].side == BUY { buys := buys + [log[i]]; } else { sales := sales + [log[i]]; }
    }
    assert log[..|log|] == log;
    var wins, losses, profit, loss := 0, 0, 0.0, 0.0;
    for j := 0 to |sales|
      invariant Stats(wins, losses, profit, loss) == Tally(sales[..j], buys)
    {
      assert sales[..j + 1][..j] == sales[..j];
      if j < |buys| {
        var pnl := Edge(buys[j], sales[j]);
        if pnl > 0.0 {
          wins, profit := wins + 1, profit + pnl;
        } else {
          losses, loss := losses + 1, loss - pnl;
        }
      }
    }
    assert sales[..|sales|] == sales;
    s, count := Stats(wins, losses, profit, loss), |sales|;
  }

  // ----- the log explains the money

  /** What one round trip adds to the cash. */
  ghost function Trip(r: Rates, buy: Trade, sale: Trade): real {
    sale.shares as real * (sale.price * (1.0 - r.fee - r.tax) - buy.price * (1.0 + r.fee))
  }

  ghost function Trips(r: Rates, log: seq<Trade>): real {
    var n := |log|;
    if n < 2 then 0.0 else Trips(r, log[..n - 2]) + Trip(r, log[n - 2], log[n - 1])
  }

  /** Fee on every trade, tax on every sale. */
  ghost function Charges(r: Rates, log: seq<Trade>): real {
    var n := |log|;
    if n == 0 then 0.0
    else Charges(r, log[..n - 1]) + Charge(r, log[n - 1])
  }

  ghost function Charge(r: Rates, t: Trade): real {
    t.shares as real * t.price * (if IsSale(t) then r.fee + r.tax else r.fee)
  }

  lemma CostPlusProceedsIsTrip(r: Rates, buy: Trade, sale: Trade)
    requires IsSale(sale) && !IsSale(buy) && buy.shares == sale.shares
    ensures Moves(r, buy) + Moves(r, sale) == Trip(r, buy, sale)
    ensures Trip(r, buy, sale) == Edge(buy, sale) - Charge(r, buy) - Charge(r, sale)
  {
  }

  /** Peels the last round trip off a closed log. */
  lemma LastTrip(log: seq<Trade>)
    requires Alternates(log) && |log| % 2 == 0 && |log| > 0
    ensures |log| >= 2
    ensures var n := |log|; var rest := log[..n - 2];
            && Alternates(rest) && |rest| % 2 == 0
            && log[..n - 1][..n - 2] == rest
            && !IsSale(log[n - 2]) && IsSale(log[n - 1]) && log[n - 2].shares == log[n - 1].shares
            && SalesOf(log) == SalesOf(rest) + [log[n - 1]]
            && BuysOf(log) == BuysOf(rest) + [log[n - 2]]
  {
    var n := |log|;
    var rest, open := log[..n - 2], log[..n - 1];
    assert open[..n - 2] == rest;
    assert (n - 1) % 2 == 1 && (n - 2) % 2 == 0;
    assert SalesOf(open) == SalesOf(rest) && BuysOf(open) == BuysOf(rest) + [log[n - 2]];
  }

  lemma {:induction false} FlowIsTrips(r: Rates, log: seq<Trade>)
    requires Alternates(log) && |log| % 2 == 0
    ensures CashFlow(r, log) == Trips(r, log)
  {
    var n := |log|;
    if n > 0 {
      LastTrip(log);
      FlowIsTrips(r, log[..n - 2]);
      assert CashFlow(r, log[..n - 1]) == CashFlow(r, log[..n - 2]) + Moves(r, log[n - 2]);
      CostPlusProceedsIsTrip(r, log[n - 2], log[n - 1]);
    }
  }

  lemma TallyIgnoresLaterBuys(sales: seq<Trade>, buys: seq<Trade>, more: seq<Trade>)
    requires |sales| <= |buys|
    ensures Tally(sales, buys + more) == Tally(sales, buys)
  {
    if sales != [] { TallyIgnoresLaterBuys(sales[..|sales| - 1], buys, more); }
  }

  lemma ScoreAddsOne(s: Stats, buy: Trade, sale: Trade)
    requires s.profit >= 0.0 && s.loss >= 0.0
    ensures var t := Score(s, buy, sale);
            && t.profit - t.loss == s.profit - s.loss + Edge(buy, sale)
            && t.wins + t.losses == s.wins + s.losses + 1
            && t.profit >= 0.0 && t.loss >= 0.0
  {
  }

  lemma PairCounts(log: seq<Trade>)
    requires Alternates(log) && |log| % 2 == 0
    ensures |BuysOf(log)| == |SalesOf(log)|
  {
    PairsLineUp(log);
  }

  lemma TallyAppend(sales: seq<Trade>, buys: seq<Trade>, buy: Trade, sale: Trade)
    requires |sales| == |buys|
    ensures Tally(sales + [sale], buys + [buy]) == Score(Tally(sales, buys), buy, sale)
  {
    hide Score;
    assert (sales + [sale])[..|sales|] == sales;
    TallyIgnoresLaterBuys(sales, buys, [buy]);
  }

  lemma TallyLastTrip(log: seq<Trade>)
    requires Alternates(log) && |log| % 2 == 0 && |log| >= 2
    ensures var n := |log|; var rest := log[..n - 2];
            Tally(SalesOf(log), BuysOf(log)) == Score(Tally(SalesOf(rest), BuysOf(rest)), log[n - 2], log[n - 1])
  {
    LastTrip(log);
    var n := |log|;
    var rest := log[..n - 2];
    PairCounts(rest);
    hide Score, Tally, Alternates, SalesOf, BuysOf;
    TallyAppend(SalesOf(rest), BuysOf(rest), log[n - 2], log[n - 1]);
  }

  /** Price movement captured by the round trips, before charges. */
  ghost function Gross(log: seq<Trade>): real {
    var n := |log|;
    if n < 2 then 0.0 else Gross(log[..n - 2]) + Edge(log[n - 2], log[n - 1])
  }

  lemma {:induction false} TripsAreGrossLessCharges(r: Rates, log: seq<Trade>)
    requires Alternates(log) && |log| % 2 == 0
    ensures Trips(r, log) == Gross(log) - Charges(r, log)
  {
    var n := |log|;
    if n > 0 {
      LastTrip(log);
      var rest, buy, sale := log[..n - 2], log[n - 2], log[n - 1];
      TripsAreGrossLessCharges(r, rest);
      var trip, edge, onBuy, onSale := Trip(r, buy, sale), Edge(buy, sale), Charge(r, buy), Charge(r, sale);
      assert trip == edge - onBuy - onSale by { CostPlusProceedsIsTrip(r, buy, sale); }
      assert Trips(r, log) == Trips(r, rest) + trip;
      assert Gross(log) == Gross(rest) + edge;
      assert Charges(r, log[..n - 1]) == Charges(r, rest) + onBuy;
      assert Charges(r, log) == Charges(r, log[..n - 1]) + onSale;
    }
  }

  lemma {:induction false} TallyIsGross(log: seq<Trade>)
    requires Alternates(log) && |log| % 2 == 0
    ensures var s := Tally(SalesOf(log), BuysOf(log));
            && s.profit - s.loss == Gross(log)
            && s.wins + s.losses == |log| / 2
            && s.profit >= 0.0 && s.loss >= 0.0
  {
    var n := |log|;
    if n > 0 {
      LastTrip(log);
      var rest, buy, sale := log[..n - 2], log[n - 2], log[n - 1];
      TallyIsGross(rest);
      var before, edge := Tally(SalesOf(rest), BuysOf(rest)), Edge(buy, sale);
      var after := Score(before, buy, sale);
      assert after.profit - after.loss == before.profit - before.loss + edge
             && after.wins + after.losses == before.wins + before.losses + 1
             && after.profit >= 0.0 && after.loss >= 0.0 by { ScoreAddsOne(before, buy, sale); }
      assert Tally(SalesOf(log), BuysOf(log)) == after by { TallyLastTrip(log); }
      assert Gross(log) == Gross(rest) + edge;
    }
  }

  /** What the log of a finished run says about its money: the cash it moved is the sum of the round
      trips, and equally gross profit minus gross loss minus every fee and tax; each sale is scored
      once, and there is one buy for each. */
  lemma ClosedLogExplainsMoney(r: Rates, log: seq<Trade>)
    requires Alternates(log) && |log| % 2 == 0
    ensures CashFlow(r, log) == Trips(r, log)
    ensures var s := Tally(SalesOf(log), BuysOf(log));
            && CashFlow(r, log) == s.profit - s.loss - Charges(r, log)
            && s.wins + s.losses == |SalesOf(log)| == |BuysOf(log)|
  {
    FlowIsTrips(r, log);
    TripsAreGrossLessCharges(r, log);
    TallyIsGross(log);
    PairsLineUp(log);
  }

  // ----- a whole day, and the end of a run

  /** Acts on the decision and records equity. */
  function Settle(r: Rates, b: Book, day: nat, price: real, action: Action): Book
    requires !DividesByZero(r, b, price, action)
  {
    MarkToMarket(Execute(r, b, day, price, action), price)
  }

  /** A marked book: equity is recorded for `days` days and the last one is today's. */
  ghost predicate Marked(b: Book, days: nat, price: real) {
    && |b.curve| == days
    && (days > 0 ==> b.curve[days - 1] == Equity(b.cash, b.shares, price))
    && (days == 0 ==> b.shares == 0)
  }

  lemma SettleKeepsConsistent(r: Rates, b: Book, day: nat, price: real, action: Action)
    requires !DividesByZero(r, b, price, action)
    requires Consistent(r, b)
    ensures var s := Settle(r, b, day, price, action);
            Consistent(r, s) && Marked(s, |b.curve| + 1, price)
  {
    var b' := Execute(r, b, day, price, action);
    ExecuteKeepsConsistent(r, b, day, price, action);
    ExecuteLeavesCurve(r, b, day, price, action);
    MarkingKeepsConsistent(r, b', price);
  }

  lemma ExecuteLeavesCurve(r: Rates, b: Book, day: nat, price: real, action: Action)
    requires !DividesByZero(r, b, price, action)
    ensures Execute(r, b, day, price, action).curve == b.curve
  {
  }

  lemma MarkingKeepsConsistent(r: Rates, b: Book, price: real)
    requires Consistent(r, b)
    ensures Consistent(r, MarkToMarket(b, price)) && Marked(MarkToMarket(b, price), |b.curve| + 1, price)
  {
  }

  /** A settled day records what the book is then worth at the day's close. */
  lemma SettleRecords(r: Rates, b: Book, day: nat, price: real, action: Action, s: Book)
    requires !DividesByZero(r, b, price, action) && s == Settle(r, b, day, price, action)
    ensures s.curve == b.curve + [s.cash + s.shares as real * price]
  {
    hide Execute;
    ExecuteLeavesCurve(r, b, day, price, action);
    assert Equity(s.cash, s.shares, price) == s.cash + s.shares as real * price;
  }

  lemma SettleKeepsSolvent(r: Rates, b: Book, day: nat, price: real, action: Action)
    requires r.Sane() && price > 0.0 && Solvent(b) && Positive(b.curve)
    ensures !DividesByZero(r, b, price, action)
    ensures var s := Settle(r, b, day, price, action); Solvent(s) && Positive(s.curve)
  {
    ExecuteKeepsSolvent(r, b, day, price, action);
    var b' := Execute(r, b, day, price, action);
    assert b'.curve == b.curve;
    MarkedEquityIsPositive(b', price);
  }

  /** With the forced close logged, nothing is held, the log is closed, and the final equity is the
      starting capital plus what the log moved. */
  lemma LoggedCloseExplainsEquity(r: Rates, b: Book, day: nat, price: real)
    requires Consistent(r, b) && Marked(b, |b.curve|, price)
    requires |b.curve| == 0 ==> b.trades == []
    ensures var f := ForceClose(r, b, day, price, true);
            && f.shares == 0
            && Alternates(f.trades) && |f.trades| % 2 == 0
            && f.cash == FinalEquity(r, f) == r.capital + CashFlow(r, f.trades)
  {
    if b.shares > 0 {
      var t := Trade(day, SELL_FORCE, price, b.shares);
      AppendMove(r, b.trades, t);
      AppendAlternates(b.trades, t);
    }
  }

  /** The forced close replaces the last recorded value by the final cash and no other. */
  lemma CloseRecords(r: Rates, b: Book, day: nat, price: real, logged: bool, f: Book)
    requires Consistent(r, b) && Marked(b, |b.curve|, price)
    requires b.shares > 0 ==> |b.curve| > 0
    requires f == ForceClose(r, b, day, price, logged)
    ensures |f.curve| == |b.curve| && forall i :: 0 <= i < |b.curve| - 1 ==> f.curve[i] == b.curve[i]
    ensures |f.curve| > 0 ==> f.curve[|f.curve| - 1] == f.cash
  {
    hide CashFlow, Proceeds;
    if b.shares == 0 { assert Equity(b.cash, 0, price) == b.cash; }
  }

  /** The trade log alone explains the final equity: it is the capital plus the round trips, and the capital plus
      profit less loss less every fee and tax; buys and sales match one to one and nothing is left open. */
  ghost predicate ExplainedByLog(r: Rates, f: Book) {
    var s := Tally(SalesOf(f.trades), BuysOf(f.trades));
    && f.shares == 0 && Alternates(f.trades) && |f.trades| % 2 == 0
    && f.cash == FinalEquity(r, f)
    && FinalEquity(r, f) == r.capital + Trips(r, f.trades)
    && FinalEquity(r, f) == r.capital + s.profit - s.loss - Charges(r, f.trades)
    && s.wins + s.losses == |SalesOf(f.trades)| == |BuysOf(f.trades)|
  }

  lemma ClosingExplains(r: Rates, b: Book, day: nat, price: real)
    requires Consistent(r, b) && Marked(b, |b.curve|, price)
    requires |b.curve| == 0 ==> b.trades == []
    ensures ExplainedByLog(r, ForceClose(r, b, day, price, true))
  {
    LoggedCloseExplainsEquity(r, b, day, price);
    ClosedLogExplainsMoney(r, ForceClose(r, b, day, price, true).trades);
  }

  /** Without logging it, the log misses exactly the forced proceeds. */
  lemma UnloggedCloseMissesProceeds(r: Rates, b: Book, day: nat, price: real)
    requires Consistent(r, b) && Marked(b, |b.curve|, price)
    requires |b.curve| == 0 ==> b.trades == []
    ensures var f := ForceClose(r, b, day, price, false);
            && f.trades == b.trades
            && FinalEquity(r, f) == r.capital + CashFlow(r, f.trades) + Proceeds(r, price, OpenShares(f.trades))
  {
  }

  /** Positive equity on every day survives the forced close. */
  lemma ClosedCurveStaysPositive(r: Rates, b: Book, day: nat, price: real, logged: bool)
    requires r.Sane() && price > 0.0 && Solvent(b)
    requires (b.shares > 0 ==> |b.curve| > 0) && Positive(b.curve)
    ensures Positive(ForceClose(r, b, day, price, logged).curve)
  {
    if b.shares > 0 { ProceedsPositive(r, price, b.shares); }
  }

  lemma MarkedEquityIsPositive(b: Book, price: real)
    requires Solvent(b) && price > 0.0
    ensures Equity(b.cash, b.shares, price) > 0.0
  {
    var held := b.shares as real;
    assert Equity(b.cash, b.shares, price) == b.cash + held * price;
    if b.shares > 0 { MulPositive(held, price); } else { assert held == 0.0; }
  }
}
