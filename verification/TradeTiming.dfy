/** When an engine trades, and how much it buys: the log read against the signal.  An engine differs in when it
    sells of itself; `asks(e, d)` says that a sale of the position bought on day `e` is asked for on day `d`. */
module TradeTiming {
  import opened Ledger
  import opened Reals

  type Asks = (nat, nat) -> bool

  /** Entry `k` was made at the close of its day, on a day when it was asked for. */
  ghost predicate Prompted(closes: seq<real>, signal: Signal, asks: Asks, log: seq<Trade>, k: nat)
    requires k < |log|
  {
    var t := log[k];
    && 1 <= t.day < |closes| && t.price == closes[t.day]
    && match t.side
       case BUY => signal(closes[..t.day + 1]) == Buy
       case SELL => k > 0 && asks(log[k - 1].day, t.day)
       case SELL_FORCE => k == |log| - 1 && t.day == |closes| - 1
  }

  ghost predicate AllPrompted(closes: seq<real>, signal: Signal, asks: Asks, log: seq<Trade>) {
    && (forall k :: 0 <= k < |log| ==> Prompted(closes, signal, asks, log, k))
    && (forall j, k :: 0 <= j < k < |log| ==> log[j].day <= log[k].day)
  }

  lemma PromptedAppend(closes: seq<real>, signal: Signal, asks: Asks, log: seq<Trade>, t: Trade)
    requires AllPrompted(closes, signal, asks, log)
    requires forall k :: 0 <= k < |log| ==> log[k].side != SELL_FORCE && log[k].day <= t.day
    requires Prompted(closes, signal, asks, log + [t], |log|)
    ensures AllPrompted(closes, signal, asks, log + [t])
  {
    var more := log + [t];
    forall k | 0 <= k < |more| ensures Prompted(closes, signal, asks, more, k) {
      if k < |log| {
        assert Prompted(closes, signal, asks, log, k) && more[k] == log[k];
      }
    }
  }

  /** The log entry one day adds, if any. */
  lemma TradesOf(r: Rates, b: Book, day: nat, price: real, action: Action)
    requires !DividesByZero(r, b, price, action) && Consistent(r, b)
    ensures var log := Settle(r, b, day, price, action).trades;
            if action == Buy && b.shares == 0 && Lot(r, b.cash, price) > 0 then
              log == b.trades + [Trade(day, BUY, price, Lot(r, b.cash, price))]
            else if action == Sell && b.shares > 0 then
              log == b.trades + [Trade(day, SELL, price, b.shares)]
            else log == b.trades
    ensures b.shares >= 0
    ensures b.shares > 0 ==> b.trades != [] && b.buyPrice == b.trades[|b.trades| - 1].price
  {
  }

  /** The log of the first `n` days follows the signal, with at most one trade a day. */
  ghost predicate Followed(closes: seq<real>, signal: Signal, asks: Asks, log: seq<Trade>, n: nat) {
    && AllPrompted(closes, signal, asks, log)
    && (forall k :: 0 <= k < |log| ==> log[k].side != SELL_FORCE && log[k].day <= n)
    && (forall j, k :: 0 <= j < k < |log| ==> log[j].day < log[k].day)
  }

  lemma FollowedLonger(closes: seq<real>, signal: Signal, asks: Asks, log: seq<Trade>, n: nat)
    requires n > 0 && Followed(closes, signal, asks, log, n - 1)
    ensures Followed(closes, signal, asks, log, n)
  {
    hide AllPrompted;
  }

  lemma FollowedAppend(closes: seq<real>, signal: Signal, asks: Asks, log: seq<Trade>, t: Trade)
    requires t.day > 0 && Followed(closes, signal, asks, log, t.day - 1) && t.side != SELL_FORCE
    requires Prompted(closes, signal, asks, log + [t], |log|)
    ensures Followed(closes, signal, asks, log + [t], t.day)
  {
    hide Prompted;
    PromptedAppend(closes, signal, asks, log, t);
  }

  /** One day of an engine whose decision is to buy only on the signal and to sell only when asked. */
  lemma DayFollows(r: Rates, b: Book, closes: seq<real>, signal: Signal, asks: Asks, n: nat, action: Action)
    requires 0 < n < |closes| && !DividesByZero(r, b, closes[n], action) && Consistent(r, b)
    requires Followed(closes, signal, asks, b.trades, n - 1)
    requires action == Buy && b.shares == 0 ==> signal(closes[..n + 1]) == Buy
    requires action == Sell && b.shares > 0 ==> asks(EntryDay(b), n)
    ensures Followed(closes, signal, asks, Settle(r, b, n, closes[n], action).trades, n)
  {
    var price := closes[n];
    TradesOf(r, b, n, price, action);
    FollowedLonger(closes, signal, asks, b.trades, n);
    hide Followed, Settle, Execute, Consistent, Alternates, Lot;
    if action == Buy && b.shares == 0 && Lot(r, b.cash, price) > 0 {
      FollowedAppend(closes, signal, asks, b.trades, Trade(n, BUY, price, Lot(r, b.cash, price)));
    } else if action == Sell && b.shares > 0 {
      FollowedAppend(closes, signal, asks, b.trades, Trade(n, SELL, price, b.shares));
    }
  }

  /** The forced close is the last entry, on the last day. */
  lemma CloseFollows(r: Rates, b: Book, closes: seq<real>, signal: Signal, asks: Asks)
    requires |closes| > 1 && Consistent(r, b) && Marked(b, |closes| - 1, closes[|closes| - 1])
    requires Followed(closes, signal, asks, b.trades, |closes| - 1)
    ensures AllPrompted(closes, signal, asks, ForceClose(r, b, |closes| - 1, closes[|closes| - 1], true).trades)
  {
    var last := |closes| - 1;
    if b.shares > 0 {
      PromptedAppend(closes, signal, asks, b.trades, Trade(last, SELL_FORCE, closes[last], b.shares));
    }
  }

  /** The part of the cash set aside pays for at least one share.  (For a negative price: both are negative.) */
  ghost predicate BuysAny(r: Rates, cash: real, price: real) {
    var one, aside := price * (1.0 + r.fee), cash * r.positionSize;
    if one > 0.0 then aside >= one else one < 0.0 && aside <= one
  }

  lemma LotIfAny(r: Rates, cash: real, price: real)
    requires UnitCost(r, price) != 0.0
    ensures Lot(r, cash, price) > 0 <==> BuysAny(r, cash, price)
  {
    var unit, budget := UnitCost(r, price), Budget(r, cash);
    assert Lot(r, cash, price) > 0 <==> budget / unit >= 1.0;
    QuotientAtLeastOne(budget, unit);
  }

  lemma QuotientAtLeastOne(x: real, unit: real)
    requires unit != 0.0
    ensures x / unit >= 1.0 <==> if unit > 0.0 then x >= unit else x <= unit
  {
    var q := x / unit;
    assert Times(q, unit) == x && Times(1.0, unit) == unit;
    if unit > 0.0 {
      TimesOrder(1.0, q, unit);
    } else {
      assert Times(q, -unit) == -x && Times(1.0, -unit) == -unit;
      TimesOrder(1.0, q, -unit);
    }
  }

  /** On a day when the book is flat the log grows exactly if a BUY is decided and at least one share is bought;
      when shares are held, exactly if a sale is decided. */
  lemma TradeIff(r: Rates, b: Book, day: nat, price: real, action: Action)
    requires !DividesByZero(r, b, price, action) && Consistent(r, b)
    ensures Settle(r, b, day, price, action).trades != b.trades <==>
              if b.shares == 0 then action == Buy && BuysAny(r, b.cash, price) else action == Sell
  {
    TradesOf(r, b, day, price, action);
    if UnitCost(r, price) != 0.0 { LotIfAny(r, b.cash, price); }
    hide Execute, Consistent, Alternates, Lot, BuysAny;
    var log := Settle(r, b, day, price, action).trades;
    assert log != b.trades ==> |log| > |b.trades|;
  }

  /** `n` shares, fee included, fit into the part of the cash set aside, and one more would not. */
  ghost predicate FillsShare(r: Rates, cash: real, price: real, n: int) {
    JustFits(n as real, price * (1.0 + r.fee), cash * r.positionSize)
  }

  /** (A negative price turns both comparisons round.) */
  ghost predicate JustFits(n: real, one: real, aside: real) {
    if one > 0.0 then n * one <= aside < (n + 1.0) * one else n * one >= aside > (n + 1.0) * one
  }

  /** A BUY takes exactly that number, at any rates and prices. */
  lemma BoughtLotFills(r: Rates, cash: real, price: real)
    requires UnitCost(r, price) != 0.0 && Lot(r, cash, price) > 0
    ensures FillsShare(r, cash, price, Lot(r, cash, price))
  {
    var unit, budget, n := UnitCost(r, price), Budget(r, cash), Lot(r, cash, price);
    assert n == Truncate(budget / unit);
    FloorOfQuotient(budget, unit, n);
    FitsByUnits(n as real, unit, budget);
  }

  lemma FitsByUnits(n: real, unit: real, budget: real)
    requires unit > 0.0 ==> Times(n, unit) <= budget < Times(n, unit) + unit
    requires unit <= 0.0 ==> Times(n, unit) >= budget > Times(n, unit) + unit
    ensures JustFits(n, unit, budget)
  {
    assert (n + 1.0) * unit == n * unit + unit;
  }

  /** With sane rates and a positive price so does the number computed when nothing is bought: zero. */
  lemma LotFillsBudget(r: Rates, cash: real, price: real)
    requires r.Sane() && price > 0.0 && cash >= 0.0
    ensures UnitCost(r, price) > 0.0 && Lot(r, cash, price) >= 0
    ensures FillsShare(r, cash, price, Lot(r, cash, price))
  {
    LotIsAffordable(r, cash, price);
    var unit, budget, n := UnitCost(r, price), Budget(r, cash), Lot(r, cash, price);
    assert budget >= 0.0 && n == Truncate(budget / unit);
    NonNegativeQuotient(budget, unit);
    FloorOfQuotient(budget, unit, n);
    FitsByUnits(n as real, unit, budget);
  }

  /** Entry `k`, if a BUY, was sized by the cash that the log before it had left. */
  ghost predicate Filled(r: Rates, log: seq<Trade>, k: nat)
    requires k < |log|
  {
    log[k].side == BUY ==> FillsShare(r, r.capital + CashFlow(r, log[..k]), log[k].price, log[k].shares)
  }

  ghost predicate AllFilled(r: Rates, log: seq<Trade>) {
    forall k :: 0 <= k < |log| ==> Filled(r, log, k)
  }

  lemma FilledAppend(r: Rates, log: seq<Trade>, t: Trade)
    requires AllFilled(r, log)
    requires t.side == BUY ==> FillsShare(r, r.capital + CashFlow(r, log), t.price, t.shares)
    ensures AllFilled(r, log + [t])
  {
    hide FillsShare, CashFlow;
    var more := log + [t];
    forall k | 0 <= k < |more| ensures Filled(r, more, k) {
      assert more[..k] == log[..k];
      if k < |log| {
        assert Filled(r, log, k) && more[k] == log[k];
      } else {
        assert log[..k] == log;
      }
    }
  }

  lemma DayFills(r: Rates, b: Book, day: nat, price: real, action: Action)
    requires !DividesByZero(r, b, price, action) && Consistent(r, b) && AllFilled(r, b.trades)
    ensures AllFilled(r, Settle(r, b, day, price, action).trades)
  {
    TradesOf(r, b, day, price, action);
    hide AllFilled, FillsShare, Settle, CashFlow, Alternates, Lot, Times;
    if action == Buy && b.shares == 0 && Lot(r, b.cash, price) > 0 {
      BoughtLotFills(r, b.cash, price);
      FilledAppend(r, b.trades, Trade(day, BUY, price, Lot(r, b.cash, price)));
    } else if action == Sell && b.shares > 0 {
      FilledAppend(r, b.trades, Trade(day, SELL, price, b.shares));
    }
  }

  lemma CloseFills(r: Rates, b: Book, day: nat, price: real, logged: bool)
    requires AllFilled(r, b.trades) && (b.shares > 0 ==> |b.curve| > 0)
    ensures AllFilled(r, ForceClose(r, b, day, price, logged).trades)
  {
    hide AllFilled;
    FilledAppend(r, b.trades, Trade(day, SELL_FORCE, price, b.shares));
  }

  lemma TimesSum(x: real, y: real, unit: real)
    ensures Times(x + y, unit) == Times(x, unit) + Times(y, unit)
  {
  }

  lemma TimesPositive(x: real, unit: real)
    requires unit > 0.0
    ensures x > 0.0 ==> Times(x, unit) > 0.0
    ensures x == 0.0 ==> Times(x, unit) == 0.0
    ensures x == 1.0 ==> Times(x, unit) == unit
  {
  }

  lemma FloorOfQuotient(x: real, unit: real, n: int)
    requires unit != 0.0 && x / unit >= 0.0 && n == Truncate(x / unit)
    ensures unit > 0.0 ==> Times(n as real, unit) <= x < Times(n as real, unit) + unit
    ensures unit < 0.0 ==> Times(n as real, unit) >= x > Times(n as real, unit) + unit
  {
    var q := x / unit;
    assert Times(q, unit) == x;
    if unit > 0.0 {
      FloorBounds(q, unit, x, n as real);
    } else {
      assert Times(q, -unit) == -x && Times(n as real, -unit) == -Times(n as real, unit);
      FloorBounds(q, -unit, -x, n as real);
    }
  }

  lemma FloorBounds(q: real, unit: real, x: real, low: real)
    requires unit > 0.0 && low <= q < low + 1.0 && Times(q, unit) == x
    ensures Times(low, unit) <= x < Times(low, unit) + unit
  {
    hide Times;
    var up, down := low + 1.0 - q, q - low;
    TimesPositive(up, unit);
    TimesPositive(down, unit);
    TimesPositive(1.0, unit);
    TimesSum(up, q, unit);
    TimesSum(low, 1.0, unit);
    TimesSum(low, down, unit);
    assert up + q == low + 1.0 && low + down == q;
  }
}
