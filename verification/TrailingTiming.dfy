/** The trailing-stop engine's log against its signal, in both directions. */
module TrailingTiming {
  import opened Ledger
  import opened Options
  import opened TradeTiming
  import opened TrailingEngine

  /** The close has fallen at least `trailPct` percent from the highest close since the entry day. */
  ghost predicate StopHit(closes: seq<real>, trailPct: real, e: nat, d: nat)
    requires e <= d < |closes|
  {
    exists peak :: IsPeak(closes, e, d, peak) && peak != 0.0 && FallenBy(peak, closes[d], trailPct)
  }

  /** A sale is asked for by the signal or by the trailing stop. */
  ghost function SaleAsked(closes: seq<real>, signal: Signal, trailPct: real): Asks {
    (e: nat, d: nat) => e <= d < |closes| && (signal(closes[..d + 1]) == Sell || StopHit(closes, trailPct, e, d))
  }

  lemma OnePeak(closes: seq<real>, from: nat, to: nat, x: real, y: real)
    requires from <= to < |closes| && IsPeak(closes, from, to, x) && IsPeak(closes, from, to, y)
    ensures x == y
  {
    var i :| from <= i <= to && closes[i] == x;
    var j :| from <= j <= to && closes[j] == y;
  }

  /** What a day's decision leads to: the tracked peak, raised to today's close, is the highest close since the
      entry day `e`. */
  lemma DecisionIsAsked(closes: seq<real>, t: Trail, trailPct: real, signalled: Action, e: nat, n: nat)
    requires e < n < |closes| && t.book.shares > 0 && IsPeak(closes, e, n - 1, t.peak) && !PeakIsZero(t, closes[n])
    ensures Decide(t, closes[n], trailPct, signalled) == Sell
            <==> signalled == Sell || StopHit(closes, trailPct, e, n)
  {
    var peak := Raised(t, closes[n]);
    RaisingKeepsPeak(closes, e, n, t.peak, peak);
    DropAgainst(peak, closes[n], trailPct);
    hide FallenBy, Drop;
    if other :| IsPeak(closes, e, n, other) && other != 0.0 && FallenBy(other, closes[n], trailPct) {
      OnePeak(closes, e, n, peak, other);
    }
  }

  /** Every logged trade was asked for and made at that day's close, at most one a day: a BUY by the signal, a
      SELL by the signal or by the trailing stop. */
  lemma {:induction false} DaysFollowSignals(r: Rates, closes: seq<real>, signal: Signal, trailPct: real, n: nat)
    requires n < |closes|
    ensures var t := After(r, closes, signal, trailPct, n);
            t.Some? ==> Followed(closes, signal, SaleAsked(closes, signal, trailPct), t.value.book.trades, n)
  {
    if n > 0 && After(r, closes, signal, trailPct, n).Some? {
      var t := After(r, closes, signal, trailPct, n - 1).value;
      var action := Decide(t, closes[n], trailPct, signal(closes[..n + 1]));
      var asks := SaleAsked(closes, signal, trailPct);
      assert After(r, closes, signal, trailPct, n).value.book == Settle(r, t.book, n, closes[n], action);
      DaysFollowSignals(r, closes, signal, trailPct, n - 1);
      DaysConsistent(r, closes, signal, trailPct, n - 1);
      PeakSinceEntry(r, closes, signal, trailPct, n - 1);
      if t.book.shares > 0 {
        DecisionIsAsked(closes, t, trailPct, signal(closes[..n + 1]), EntryDay(t.book), n);
      }
      hide After, Settle, Execute, Consistent, Followed, StopHit;
      DayFollows(r, t.book, closes, signal, asks, n, action);
    }
  }

  lemma LogFollowsSignals(r: Rates, closes: seq<real>, signal: Signal, trailPct: real)
    requires closes != []
    ensures var f := Finished(r, closes, signal, trailPct);
            f.Some? ==> AllPrompted(closes, signal, SaleAsked(closes, signal, trailPct), f.value.trades)
  {
    var last := |closes| - 1;
    DaysFollowSignals(r, closes, signal, trailPct, last);
    DaysConsistent(r, closes, signal, trailPct, last);
    if t :| Some(t) == After(r, closes, signal, trailPct, last) && last > 0 {
      CloseFollows(r, t.book, closes, signal, SaleAsked(closes, signal, trailPct));
    }
  }

  /** And nothing asked for is missed, on any day reached. */
  lemma TradesExactlyWhenAsked(r: Rates, closes: seq<real>, signal: Signal, trailPct: real, n: nat)
    requires 0 < n < |closes|
    ensures var t, t' := After(r, closes, signal, trailPct, n - 1), After(r, closes, signal, trailPct, n);
            t.Some? && t'.Some? ==>
              (t'.value.book.trades != t.value.book.trades <==>
                 if t.value.book.shares == 0
                 then signal(closes[..n + 1]) == Buy && BuysAny(r, t.value.book.cash, closes[n])
                 else SaleAsked(closes, signal, trailPct)(EntryDay(t.value.book), n))
  {
    DaysConsistent(r, closes, signal, trailPct, n - 1);
    PeakSinceEntry(r, closes, signal, trailPct, n - 1);
    if After(r, closes, signal, trailPct, n).Some? {
      var t, price := After(r, closes, signal, trailPct, n - 1).value, closes[n];
      var action := Decide(t, price, trailPct, signal(closes[..n + 1]));
      TradeIff(r, t.book, n, price, action);
      assert After(r, closes, signal, trailPct, n).value.book == Settle(r, t.book, n, price, action);
      if t.book.shares > 0 {
        DecisionIsAsked(closes, t, trailPct, signal(closes[..n + 1]), EntryDay(t.book), n);
      }
      hide BuysAny, Settle, Consistent, StopHit;
    }
  }

  /** A held position that has fallen that far from its highest close is sold whole at that day's close. */
  lemma StopSells(r: Rates, closes: seq<real>, signal: Signal, trailPct: real, n: nat, t: Trail, peak: real)
    requires 0 < n < |closes| && After(r, closes, signal, trailPct, n - 1) == Some(t) && t.book.shares > 0
    requires EntryDay(t.book) <= n && IsPeak(closes, EntryDay(t.book), n, peak) && peak != 0.0
    requires FallenBy(peak, closes[n], trailPct)
    ensures var t' := After(r, closes, signal, trailPct, n);
            t'.Some? && t'.value.book.shares == 0
            && t'.value.book.trades == t.book.trades + [Trade(n, SELL, closes[n], t.book.shares)]
  {
    hide Drop, IsPeak, FallenBy, Settle;
    var e, signalled := EntryDay(t.book), signal(closes[..n + 1]);
    PeakSinceEntry(r, closes, signal, trailPct, n - 1);
    RaisingKeepsPeak(closes, e, n, t.peak, Raised(t, closes[n]));
    OnePeak(closes, e, n, peak, Raised(t, closes[n]));
    DecisionIsAsked(closes, t, trailPct, signalled, e, n);
    assert StopHit(closes, trailPct, e, n);
    SaleSells(r, t.book, n, closes[n]);
    hide Decide, StopHit, Consistent;
  }

  lemma SaleSells(r: Rates, b: Book, day: nat, price: real)
    requires b.shares > 0
    ensures var s := Settle(r, b, day, price, Sell);
            s.shares == 0 && s.trades == b.trades + [Trade(day, SELL, price, b.shares)]
  {
  }

  /** Every BUY of every run takes as many whole shares as the cash set aside pays for. */
  lemma {:induction false} DaysFill(r: Rates, closes: seq<real>, signal: Signal, trailPct: real, n: nat)
    requires n < |closes|
    ensures var t := After(r, closes, signal, trailPct, n); t.Some? ==> AllFilled(r, t.value.book.trades)
  {
    if n > 0 && After(r, closes, signal, trailPct, n).Some? {
      DaysFill(r, closes, signal, trailPct, n - 1);
      DaysConsistent(r, closes, signal, trailPct, n - 1);
      var t := After(r, closes, signal, trailPct, n - 1).value;
      hide Decide, Settle, AllFilled, Consistent;
      DayFills(r, t.book, n, closes[n], Decide(t, closes[n], trailPct, signal(closes[..n + 1])));
    }
  }

  lemma BuysFillBudget(r: Rates, closes: seq<real>, signal: Signal, trailPct: real)
    requires closes != []
    ensures var f := Finished(r, closes, signal, trailPct); f.Some? ==> AllFilled(r, f.value.trades)
  {
    var last := |closes| - 1;
    DaysFill(r, closes, signal, trailPct, last);
    DaysConsistent(r, closes, signal, trailPct, last);
    if t :| Some(t) == After(r, closes, signal, trailPct, last) { CloseFills(r, t.book, last, closes[last], true); }
    hide AllFilled, Consistent;
  }
}
