/** The toolkit engine's log against its signal, in both directions. */
module ToolkitTiming {
  import opened Ledger
  import opened Options
  import opened ToolkitEngine
  import opened TradeTiming

  /** The close is at or beyond a threshold, measured from the entry price. */
  ghost predicate ThresholdHit(p: Params, entry: real, price: real) {
    && entry > 0.0
    && (|| (p.stopLoss.Some? && DownBy(entry, price, p.stopLoss.value))
        || (p.takeProfit.Some? && UpBy(entry, price, p.takeProfit.value)))
  }

  /** A sale is asked for by the signal, or by a threshold measured from the close of the entry day. */
  ghost function SaleAsked(p: Params, closes: seq<real>, signal: Signal): Asks {
    (e: nat, d: nat) =>
      e < |closes| && d < |closes| && (signal(closes[..d + 1]) == Sell || ThresholdHit(p, closes[e], closes[d]))
  }

  /** What a day's decision leads to, in terms of the signal. */
  lemma DecisionIsAsked(p: Params, b: Book, price: real, signalled: Action)
    ensures var action := Decide(p, b, price, signalled);
            && (b.shares <= 0 ==> action == signalled)
            && (b.shares > 0 ==> (action == Sell <==> signalled == Sell || ThresholdHit(p, b.buyPrice, price)))
  {
    hide DownBy, UpBy, OpenProfit, Abs;
    if b.buyPrice > 0.0 {
      if p.stopLoss.Some? { ThresholdsAreMoves(b, price, p.stopLoss.value); }
      if p.takeProfit.Some? { ThresholdsAreMoves(b, price, p.takeProfit.value); }
    }
  }

  /** Every logged trade was asked for and made at that day's close, at most one a day: a BUY by the signal,
      a SELL by the signal or by a threshold measured from the BUY before it. */
  lemma {:induction false} DaysFollowSignals(p: Params, closes: seq<real>, signal: Signal, n: nat)
    requires n < |closes|
    ensures var b := After(p, closes, signal, n);
            b.Some? ==> Followed(closes, signal, SaleAsked(p, closes, signal), b.value.trades, n)
  {
    if n > 0 && After(p, closes, signal, n).Some? {
      var b := After(p, closes, signal, n - 1).value;
      var action := Decide(p, b, closes[n], signal(closes[..n + 1]));
      assert After(p, closes, signal, n).value == Settle(p.rates, b, n, closes[n], action);
      DaysFollowSignals(p, closes, signal, n - 1);
      DaysConsistent(p, closes, signal, n - 1);
      OneMoreDay(p, closes, signal, b, n);
    }
  }

  lemma OneMoreDay(p: Params, closes: seq<real>, signal: Signal, b: Book, n: nat)
    requires 0 < n < |closes| && Consistent(p.rates, b)
    requires Followed(closes, signal, SaleAsked(p, closes, signal), b.trades, n - 1)
    ensures var action := Decide(p, b, closes[n], signal(closes[..n + 1]));
            !DividesByZero(p.rates, b, closes[n], action) ==>
              Followed(closes, signal, SaleAsked(p, closes, signal), Settle(p.rates, b, n, closes[n], action).trades, n)
  {
    var asks, action := SaleAsked(p, closes, signal), Decide(p, b, closes[n], signal(closes[..n + 1]));
    if !DividesByZero(p.rates, b, closes[n], action) {
      DecisionIsAsked(p, b, closes[n], signal(closes[..n + 1]));
      TradesOf(p.rates, b, n, closes[n], action);
      if b.shares > 0 { assert Prompted(closes, signal, asks, b.trades, |b.trades| - 1); }
      hide Decide, Settle, Execute, Consistent, ThresholdHit, Followed, Prompted;
      DayFollows(p.rates, b, closes, signal, asks, n, action);
    }
  }

  /** The same for the finished run; only its last entry can be the forced sale, on the last day. */
  lemma LogFollowsSignals(p: Params, closes: seq<real>, signal: Signal)
    requires closes != []
    ensures var f := Finished(p, closes, signal);
            f.Some? ==> AllPrompted(closes, signal, SaleAsked(p, closes, signal), f.value.trades)
  {
    var last := |closes| - 1;
    DaysFollowSignals(p, closes, signal, last);
    DaysConsistent(p, closes, signal, last);
    if b :| Some(b) == After(p, closes, signal, last) && last > 0 {
      CloseFollows(p.rates, b, closes, signal, SaleAsked(p, closes, signal));
    }
  }

  /** And nothing asked for is missed: on each day reached a trade is logged exactly when the book is flat, the
      signal says Buy and the budget buys a share, or shares are held and a sale is asked for. */
  lemma TradesExactlyWhenAsked(p: Params, closes: seq<real>, signal: Signal, n: nat)
    requires 0 < n < |closes|
    ensures var b, b' := After(p, closes, signal, n - 1), After(p, closes, signal, n);
            b.Some? && b'.Some? ==>
              (b'.value.trades != b.value.trades <==>
                 if b.value.shares == 0
                 then signal(closes[..n + 1]) == Buy && BuysAny(p.rates, b.value.cash, closes[n])
                 else SaleAsked(p, closes, signal)(EntryDay(b.value), n))
  {
    DaysConsistent(p, closes, signal, n - 1);
    DaysFollowSignals(p, closes, signal, n - 1);
    if After(p, closes, signal, n).Some? {
      var b, price := After(p, closes, signal, n - 1).value, closes[n];
      var action := Decide(p, b, price, signal(closes[..n + 1]));
      DecisionIsAsked(p, b, price, signal(closes[..n + 1]));
      TradeIff(p.rates, b, n, price, action);
      TradesOf(p.rates, b, n, price, action);
      assert After(p, closes, signal, n).value == Settle(p.rates, b, n, price, action);
      if b.shares > 0 {
        assert Prompted(closes, signal, SaleAsked(p, closes, signal), b.trades, |b.trades| - 1);
      }
      hide BuysAny, Settle, Consistent, Decide;
    }
  }

  /** A held position that reaches a threshold is sold whole at that day's close. */
  lemma ThresholdSells(p: Params, closes: seq<real>, signal: Signal, n: nat, b: Book)
    requires 0 < n < |closes| && After(p, closes, signal, n - 1) == Some(b)
    requires b.shares > 0 && ThresholdHit(p, b.buyPrice, closes[n])
    ensures var b' := After(p, closes, signal, n);
            b'.Some? && b'.value.shares == 0
            && b'.value.trades == b.trades + [Trade(n, SELL, closes[n], b.shares)]
  {
    hide Decide, ThresholdHit;
    DecisionIsAsked(p, b, closes[n], signal(closes[..n + 1]));
  }

  /** Every BUY of every run takes as many whole shares as the cash set aside pays for. */
  lemma {:induction false} DaysFill(p: Params, closes: seq<real>, signal: Signal, n: nat)
    requires n < |closes|
    ensures var b := After(p, closes, signal, n); b.Some? ==> AllFilled(p.rates, b.value.trades)
  {
    if n > 0 && After(p, closes, signal, n).Some? {
      DaysFill(p, closes, signal, n - 1);
      DaysConsistent(p, closes, signal, n - 1);
      var b := After(p, closes, signal, n - 1).value;
      hide Decide, Settle, AllFilled, Consistent;
      DayFills(p.rates, b, n, closes[n], Decide(p, b, closes[n], signal(closes[..n + 1])));
    }
  }

  lemma BuysFillBudget(p: Params, closes: seq<real>, signal: Signal)
    requires closes != []
    ensures var f := Finished(p, closes, signal); f.Some? ==> AllFilled(p.rates, f.value.trades)
  {
    var last := |closes| - 1;
    DaysFill(p, closes, signal, last);
    DaysConsistent(p, closes, signal, last);
    if b :| Some(b) == After(p, closes, signal, last) { CloseFills(p.rates, b, last, closes[last], true); }
    hide AllFilled, Consistent;
  }
}
