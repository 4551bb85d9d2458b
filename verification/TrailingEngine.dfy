/** `run_trailing_stop_backtest`: sell once the close has dropped far enough from its peak since entry.  A run
    is `None` once an order, or the drop from a peak of zero, has divided by zero. */
module TrailingEngine {
  import opened Ledger
  import opened Options
  import opened Reals
  import opened Reporting

  /** The book plus the local `peak_price`. */
  datatype Trail = Trail(book: Book, peak: real)

  /** Percentage drop from the peak. */
  function Drop(peak: real, price: real): real
    requires peak != 0.0
  {
    (peak - price) / peak * 100.0
  }

  function Raised(t: Trail, price: real): real {
    if t.book.shares > 0 && price > t.peak then price else t.peak
  }

  predicate PeakIsZero(t: Trail, price: real) {
    t.book.shares > 0 && Raised(t, price) == 0.0
  }

  function Decide(t: Trail, price: real, trailPct: real, action: Action): Action
    requires !PeakIsZero(t, price)
  {
    if t.book.shares > 0 && Drop(Raised(t, price), price) >= trailPct then Sell else action
  }

  /** The peak after the order: the entry price on a buy, reset on a sale. */
  function PeakAfter(before: Book, after: Book, raised: real, price: real): real {
    if before.shares == 0 && after.shares > 0 then price
    else if before.shares > 0 && after.shares == 0 then 0.0
    else raised
  }

  function Day(r: Rates, t: Trail, day: nat, price: real, trailPct: real, action: Action): Option<Trail> {
    if PeakIsZero(t, price) then None
    else
      var decision := Decide(t, price, trailPct, action);
      if DividesByZero(r, t.book, price, decision) then None
      else
        var b := Settle(r, t.book, day, price, decision);
        Some(Trail(b, PeakAfter(t.book, b, Raised(t, price), price)))
  }

  /** The state after `n` trading days. */
  function After(r: Rates, closes: seq<real>, signal: Signal, trailPct: real, n: nat): Option<Trail>
    requires n == 0 || n < |closes|
  {
    if n == 0 then Some(Trail(Opening(r), 0.0))
    else
      match After(r, closes, signal, trailPct, n - 1)
      case None => None
      case Some(t) => Day(r, t, n, closes[n], trailPct, signal(closes[..n + 1]))
  }

  function Finished(r: Rates, closes: seq<real>, signal: Signal, trailPct: real): Option<Book>
    requires closes != []
  {
    var last := |closes| - 1;
    DaysConsistent(r, closes, signal, trailPct, last);
    match After(r, closes, signal, trailPct, last)
    case None => None
    case Some(t) => Some(ForceClose(r, t.book, last, closes[last], true))
  }

  lemma {:induction false} DaysConsistent(r: Rates, closes: seq<real>, signal: Signal, trailPct: real, n: nat)
    requires n < |closes|
    ensures var t := After(r, closes, signal, trailPct, n);
            t.Some? ==> Consistent(r, t.value.book) && Marked(t.value.book, n, closes[n])
  {
    if n > 0 {
      DaysConsistent(r, closes, signal, trailPct, n - 1);
      var before := After(r, closes, signal, trailPct, n - 1);
      hide Consistent, Decide, Execute, PeakAfter, Drop;
      if After(r, closes, signal, trailPct, n).Some? {
        var action := Decide(before.value, closes[n], trailPct, signal(closes[..n + 1]));
        SettleKeepsConsistent(r, before.value.book, n, closes[n], action);
      }
    }
  }

  /** The accounting identities hold for this engine as well. */
  lemma LogExplainsEquity(r: Rates, closes: seq<real>, signal: Signal, trailPct: real)
    requires closes != []
    ensures var f := Finished(r, closes, signal, trailPct);
            f.Some? ==> ExplainedByLog(r, f.value)
  {
    hide Day, ExplainedByLog;
    var last := |closes| - 1;
    DaysConsistent(r, closes, signal, trailPct, last);
    if t :| Some(t) == After(r, closes, signal, trailPct, last) { ClosingExplains(r, t.book, last, closes[last]); }
  }

  /** On positive prices the peak of a held position is positive, so nothing divides by zero; no day ends in debt
      or is worthless. */
  lemma {:induction false} DaysSolvent(r: Rates, closes: seq<real>, signal: Signal, trailPct: real, n: nat)
    requires n < |closes| && Positive(closes) && r.Sane()
    ensures var t := After(r, closes, signal, trailPct, n);
            && t.Some? && Solvent(t.value.book) && Positive(t.value.book.curve)
            && (t.value.book.shares > 0 ==> t.value.peak > 0.0)
  {
    if n > 0 {
      DaysSolvent(r, closes, signal, trailPct, n - 1);
      var t := After(r, closes, signal, trailPct, n - 1).value;
      assert !PeakIsZero(t, closes[n]);
      var action := Decide(t, closes[n], trailPct, signal(closes[..n + 1]));
      SettleKeepsSolvent(r, t.book, n, closes[n], action);
      OrderEffect(r, t.book, n, closes[n], action);
      hide Settle, Decide, Drop, Positive;
    }
  }

  lemma FinishedSolvent(r: Rates, closes: seq<real>, signal: Signal, trailPct: real)
    requires closes != [] && Positive(closes) && r.Sane()
    ensures var f := Finished(r, closes, signal, trailPct);
            f.Some? && Positive(f.value.curve) && |f.value.curve| == |closes| - 1
  {
    var last := |closes| - 1;
    DaysConsistent(r, closes, signal, trailPct, last);
    DaysSolvent(r, closes, signal, trailPct, last);
    ClosedCurveStaysPositive(r, After(r, closes, signal, trailPct, last).value.book, last, closes[last], true);
  }

  /** `peak` is the highest close from day `from` to day `to`. */
  ghost predicate IsPeak(closes: seq<real>, from: nat, to: nat, peak: real)
    requires from <= to < |closes|
  {
    && (forall i :: from <= i <= to ==> closes[i] <= peak)
    && (exists i :: from <= i <= to && closes[i] == peak)
  }

  /** The price is at least `pct` percent of the peak below it.  (A negative peak turns the comparison round.) */
  ghost predicate FallenBy(peak: real, price: real, pct: real) {
    if peak > 0.0 then (peak - price) * 100.0 >= pct * peak else (peak - price) * 100.0 <= pct * peak
  }

  lemma DropAgainst(peak: real, price: real, pct: real)
    requires peak != 0.0
    ensures Drop(peak, price) >= pct <==> FallenBy(peak, price, pct)
  {
    var q := (peak - price) / peak;
    assert q * peak == peak - price;
    var drop := q * 100.0;
    assert Times(drop, peak) == (peak - price) * 100.0;
    if peak > 0.0 {
      TimesOrder(pct, drop, peak);
    } else {
      assert Times(drop, -peak) == -Times(drop, peak) && Times(pct, -peak) == -(pct * peak);
      TimesOrder(pct, drop, -peak);
    }
  }

  /** While a position is held, the tracked peak is the highest close since its entry; and a position
      that survives the day after its entry (or any day, if `trailPct` is positive) has fallen less
      than `trailPct` percent from that peak. */
  lemma {:induction false} PeakSinceEntry(r: Rates, closes: seq<real>, signal: Signal, trailPct: real, n: nat)
    requires n < |closes|
    ensures var a := After(r, closes, signal, trailPct, n);
            a.Some? ==> var t := a.value;
              && t.book.shares >= 0
              && (t.book.shares > 0 ==>
                    && t.book.trades != [] && 1 <= EntryDay(t.book) <= n
                    && t.book.buyPrice == closes[EntryDay(t.book)]
                    && IsPeak(closes, EntryDay(t.book), n, t.peak) && t.peak != 0.0
                    && (EntryDay(t.book) < n || trailPct > 0.0 ==> !FallenBy(t.peak, closes[n], trailPct)))
  {
    if n > 0 {
      var before, price := After(r, closes, signal, trailPct, n - 1), closes[n];
      PeakSinceEntry(r, closes, signal, trailPct, n - 1);
      if After(r, closes, signal, trailPct, n).Some? {
        var t := before.value;
        var action := Decide(t, price, trailPct, signal(closes[..n + 1]));
        OrderEffect(r, t.book, n, price, action);
        if t.book.shares > 0 {
          RaisingKeepsPeak(closes, EntryDay(t.book), n, t.peak, Raised(t, price));
          DropAgainst(Raised(t, price), price, trailPct);
        } else {
          assert IsPeak(closes, n, n, price);
          assert trailPct > 0.0 && price != 0.0 ==> !FallenBy(price, price, trailPct) by {
            if price > 0.0 && trailPct > 0.0 { MulPositive(trailPct, price); }
            if price < 0.0 && trailPct > 0.0 { MulPositive(trailPct, -price); }
          }
        }
        hide Settle, IsPeak, FallenBy, Drop;
      }
    }
  }

  lemma RaisingKeepsPeak(closes: seq<real>, from: nat, n: nat, peak: real, raised: real)
    requires from < n < |closes| && IsPeak(closes, from, n - 1, peak)
    requires raised == if closes[n] > peak then closes[n] else peak
    ensures IsPeak(closes, from, n, raised)
  {
    var i :| from <= i <= n - 1 && closes[i] == peak;
    assert closes[if closes[n] > peak then n else i] == raised;
  }

  /** What one order can do to the holding; nothing is bought at a price of zero. */
  lemma OrderEffect(r: Rates, b: Book, day: nat, price: real, action: Action)
    requires !DividesByZero(r, b, price, action) && b.shares >= 0
    ensures var s := Settle(r, b, day, price, action);
            && s.shares >= 0
            && (b.shares > 0 && action == Sell ==> s.shares == 0)
            && (b.shares > 0 && action != Sell ==>
                  s.shares == b.shares && s.trades == b.trades && s.buyPrice == b.buyPrice)
            && (b.shares == 0 && s.shares > 0 ==>
                  s.trades != [] && EntryDay(s) == day && s.buyPrice == price && price != 0.0)
  {
    assert 0.0 * (1.0 + r.fee) == 0.0;
  }

  /** Two series that agree up to day n give the same state, or the same exception, up to day n. */
  lemma {:induction false} NoLookAhead(r: Rates, closes: seq<real>, other: seq<real>, signal: Signal, trailPct: real,
                                       n: nat)
    requires n < |closes| && n < |other|
    requires closes[..n + 1] == other[..n + 1]
    ensures After(r, closes, signal, trailPct, n) == After(r, other, signal, trailPct, n)
  {
    if n > 0 {
      assert closes[..n] == closes[..n + 1][..n] == other[..n + 1][..n] == other[..n];
      assert closes[n] == closes[..n + 1][n] == other[..n + 1][n] == other[n];
      hide Day;
      NoLookAhead(r, closes, other, signal, trailPct, n - 1);
    }
  }

  /** An exception ends the run. */
  lemma {:induction false} RaisedForGood(r: Rates, closes: seq<real>, signal: Signal, trailPct: real, i: nat, n: nat)
    requires i <= n < |closes| && After(r, closes, signal, trailPct, i) == None
    ensures After(r, closes, signal, trailPct, n) == None
  {
    hide Day;
    if i < n { RaisedForGood(r, closes, signal, trailPct, i, n - 1); }
  }

  /** The curve holds one value a day: the cash of that day and its shares at that day's close. */
  lemma {:induction false} CurveIsWorth(r: Rates, closes: seq<real>, signal: Signal, trailPct: real, i: nat, n: nat,
                                        was: Trail)
    requires 1 <= i <= n < |closes| && After(r, closes, signal, trailPct, n).Some?
    requires After(r, closes, signal, trailPct, i) == Some(was)
    ensures var curve := After(r, closes, signal, trailPct, n).value.book.curve;
            |curve| == n && curve[i - 1] == was.book.cash + was.book.shares as real * closes[i]
  {
    hide Decide, Consistent, Settle, PeakAfter, Raised;
    DaysConsistent(r, closes, signal, trailPct, n - 1);
    var t, now := After(r, closes, signal, trailPct, n - 1).value, After(r, closes, signal, trailPct, n).value;
    var action := Decide(t, closes[n], trailPct, signal(closes[..n + 1]));
    SettleRecords(r, t.book, n, closes[n], action, now.book);
    if i < n { CurveIsWorth(r, closes, signal, trailPct, i, n - 1, was); }
  }

  /** Of the finished run too, up to the day before the last; the last value is the final cash. */
  lemma FinishedCurveIsWorth(r: Rates, closes: seq<real>, signal: Signal, trailPct: real, i: nat, was: Trail)
    requires 1 <= i < |closes| && After(r, closes, signal, trailPct, i) == Some(was)
    ensures var f := Finished(r, closes, signal, trailPct);
            f.Some? ==>
              && |f.value.curve| == |closes| - 1
              && f.value.curve[i - 1] == if i < |closes| - 1 then was.book.cash + was.book.shares as real * closes[i]
                                         else f.value.cash
  {
    var last := |closes| - 1;
    hide After, Consistent, ForceClose, Marked;
    DaysConsistent(r, closes, signal, trailPct, last);
    if t :| Some(t) == After(r, closes, signal, trailPct, last) {
      CurveIsWorth(r, closes, signal, trailPct, i, last, was);
      CloseRecords(r, t.book, last, closes[last], true, Finished(r, closes, signal, trailPct).value);
    }
  }

  /** The peak update and the trailing stop. */
  method Follow(shares: int, peak: real, price: real, trailPct: real, signalled: Action, ghost t: Trail)
    returns (raised: bool, peak': real, action: Action)
    requires t.book.shares == shares && t.peak == peak
    ensures raised == PeakIsZero(t, price)
    ensures !raised ==> peak' == Raised(t, price) && action == Decide(t, price, trailPct, signalled)
  {
    raised, peak', action := false, peak, signalled;
    if shares > 0 {
      if price > peak' { peak' := price; }
      if peak' == 0.0 {
        raised := true;
        return;
      }
      if Drop(peak', price) >= trailPct { action := Sell; }
    }
  }

  /** The trailing-stop body of the day loop. */
  method TradeDay(r: Rates, cash: real, shares: int, buyPrice: real, trades: seq<Trade>, curve: seq<real>, peak: real,
                  day: nat, price: real, trailPct: real, signalled: Action)
    returns (raised: bool, cash': real, shares': int, buyPrice': real, trades': seq<Trade>, curve': seq<real>,
             peak': real)
    ensures Day(r, Trail(Book(cash, shares, buyPrice, trades, curve), peak), day, price, trailPct, signalled)
         == if raised then None else Some(Trail(Book(cash', shares', buyPrice', trades', curve'), peak'))
  {
    ghost var before := Book(cash, shares, buyPrice, trades, curve);
    cash', shares', buyPrice', trades', curve' := cash, shares, buyPrice, trades, curve;
    var action: Action;
    raised, peak', action := Follow(shares, peak, price, trailPct, signalled, Trail(before, peak));
    if raised { return; }
    ghost var top := peak';
    hide Decide, Raised, Drop, Execute;
    raised, cash', shares', buyPrice', trades' := Order(r, cash, shares, buyPrice, trades, day, price, action, before);
    if raised { return; }
    if shares == 0 && shares' > 0 { peak' := price; }
    if shares > 0 && shares' == 0 { peak' := 0.0; }
    curve' := curve + [Equity(cash', shares', price)];
    ghost var after := Book(cash', shares', buyPrice', trades', curve');
    assert after == Settle(r, before, day, price, action);
    assert peak' == PeakAfter(before, after, top, price);
  }

  /** The day loop and the forced close, on local variables. */
  method TradeSeries(closes: seq<real>, signal: Signal, trailPct: real, r: Rates) returns (b: Option<Book>)
    requires closes != []
    ensures b == Finished(r, closes, signal, trailPct)
  {
    var last := |closes| - 1;
    var cash, shares, buyPrice, peak := r.capital, 0, 0.0, 0.0;
    var trades: seq<Trade>, curve: seq<real> := [], [];
    var raised := false;
    hide Day, ForceClose, Consistent;
    for i := 1 to |closes|
      invariant After(r, closes, signal, trailPct, i - 1)
             == Some(Trail(Book(cash, shares, buyPrice, trades, curve), peak))
    {
      raised, cash, shares, buyPrice, trades, curve, peak :=
        TradeDay(r, cash, shares, buyPrice, trades, curve, peak, i, closes[i], trailPct, signal(closes[..i + 1]));
      if raised {
        RaisedForGood(r, closes, signal, trailPct, i, last);
        return None;
      }
    }
    DaysConsistent(r, closes, signal, trailPct, last);
    ghost var open := Book(cash, shares, buyPrice, trades, curve);
    cash, shares, trades, curve := CloseOut(r, cash, shares, trades, curve, last, closes[last], true, open);
    b := Some(Book(cash, shares, buyPrice, trades, curve));
  }

  method RunTrailingStopBacktest(closes: seq<real>, signal: Signal, trailPct: real, r: Rates) returns (res: Report)
    requires closes != [] && Positive(closes) && r.Sane()
    ensures var f := Finished(r, closes, signal, trailPct);
            f.Some? && Describes(res, r, f.value) && res.tradingDays == |closes| - 1
  {
    FinishedSolvent(r, closes, signal, trailPct);
    var b := TradeSeries(closes, signal, trailPct, r);
    res := Summarize(r, b.value);
  }
}
