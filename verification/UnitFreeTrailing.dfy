/** The trailing-stop engine does not depend on the currency unit either. */
module UnitFreeTrailing {
  import opened Indicators
  import opened Ledger
  import opened Options
  import opened Reals
  import opened Reporting
  import opened TrailingEngine
  import opened UnitFreeRuns

  function ScaleTrail(c: real, t: Trail): Trail {
    Trail(ScaleBook(c, t.book), Times(c, t.peak))
  }

  function ScaleTrailRun(c: real, t: Option<Trail>): Option<Trail> {
    match t case None => None case Some(trail) => Some(ScaleTrail(c, trail))
  }

  lemma DropIgnoresScale(c: real, peak: real, price: real)
    requires c > 0.0 && peak != 0.0
    ensures Times(c, peak) != 0.0 && Drop(Times(c, peak), Times(c, price)) == Drop(peak, price)
  {
    SumOfTimes(c, peak, price);
    RatioIgnoresScale(c, peak - price, peak);
  }

  lemma ScalePeak(c: real, t: Trail, price: real)
    requires c > 0.0
    ensures Raised(ScaleTrail(c, t), Times(c, price)) == Times(c, Raised(t, price))
    ensures PeakIsZero(ScaleTrail(c, t), Times(c, price)) <==> PeakIsZero(t, price)
  {
    OrderIgnoresScale(c, price, t.peak);
    OrderIgnoresScale(c, Raised(t, price), 0.0);
    ZeroIsZero(c);
    hide Times, ScaleLog, Scale;
  }

  lemma ScaleStop(c: real, t: Trail, price: real, trailPct: real, said: Action)
    requires c > 0.0 && !PeakIsZero(t, price)
    ensures !PeakIsZero(ScaleTrail(c, t), Times(c, price))
    ensures Decide(ScaleTrail(c, t), Times(c, price), trailPct, said) == Decide(t, price, trailPct, said)
  {
    ScalePeak(c, t, price);
    if t.book.shares > 0 { DropIgnoresScale(c, Raised(t, price), price); }
    hide Times, Drop, Raised, ScaleLog, Scale;
  }

  lemma ScaleTrailDay(c: real, r: Rates, t: Trail, day: nat, price: real, trailPct: real, said: Action)
    requires c > 0.0
    ensures Day(ScaleRates(c, r), ScaleTrail(c, t), day, Times(c, price), trailPct, said)
         == ScaleTrailRun(c, Day(r, t, day, price, trailPct, said))
  {
    ScalePeak(c, t, price);
    if !PeakIsZero(t, price) {
      ScaleStop(c, t, price, trailPct, said);
      var action := Decide(t, price, trailPct, said);
      ScaleExecute(c, r, t.book, day, price, action);
      ZeroIsZero(c);
      hide Times, Execute, Decide, MarkToMarket, DividesByZero, PeakIsZero, Raised, ScaleLog, Scale;
      if !DividesByZero(r, t.book, price, action) {
        ScaleMark(c, Execute(r, t.book, day, price, action), price);
      }
    }
  }

  /** Multiply every price and the starting capital by c > 0: every day's book and peak are the same in the other
      unit, and an exception stays one.  The trailing percentage is left as it is. */
  lemma {:induction false} RunsIgnoreScale(r: Rates, closes: seq<real>, signal: Signal, trailPct: real, c: real, n: nat)
    requires c > 0.0 && n < |closes| && UnitFree(signal, closes, c)
    ensures After(ScaleRates(c, r), Scale(c, closes), signal, trailPct, n)
         == ScaleTrailRun(c, After(r, closes, signal, trailPct, n))
  {
    hide Times, Day;
    if n == 0 {
      ZeroIsZero(c);
      assert Scale(c, []) == [];
      assert ScaleLog(c, []) == [];
    } else {
      RunsIgnoreScale(r, closes, signal, trailPct, c, n - 1);
      assert Scale(c, closes)[..n + 1] == Scale(c, closes[..n + 1]) by { ScaleSlice(c, closes, 0, n + 1); }
      var before := After(r, closes, signal, trailPct, n - 1);
      hide ScaleTrail, ScaleRates;
      if before.Some? {
        ScaleTrailDay(c, r, before.value, n, closes[n], trailPct, signal(closes[..n + 1]));
      }
    }
  }

  lemma ScaleFinished(r: Rates, closes: seq<real>, signal: Signal, trailPct: real, c: real)
    requires c > 0.0 && closes != [] && UnitFree(signal, closes, c)
    ensures Finished(ScaleRates(c, r), Scale(c, closes), signal, trailPct)
         == ScaleRun(c, Finished(r, closes, signal, trailPct))
  {
    var last := |closes| - 1;
    RunsIgnoreScale(r, closes, signal, trailPct, c, last);
    DaysConsistent(r, closes, signal, trailPct, last);
    hide After, ForceClose, Times, Consistent, ScaleBook;
    var t := After(r, closes, signal, trailPct, last);
    if t.Some? { ScaleForceClose(c, r, t.value.book, last, closes[last]); }
  }

  /** A strategy's trailing-stop backtest is independent of the currency unit: the finished book is the same book
      in the other unit, and every reported percentage and count is the same. */
  lemma BacktestsIgnoreScale(r: Rates, closes: seq<real>, s: S.Strategy, trailPct: real, c: real)
    requires s.Valid() && c > 0.0 && closes != [] && Positive(closes) && r.Sane()
    ensures var f := Finished(r, closes, Answers(s), trailPct);
            var f' := Finished(ScaleRates(c, r), Scale(c, closes), Answers(s), trailPct);
            && f.Some? && f' == Some(ScaleBook(c, f.value))
            && forall res :: Describes(res, r, f.value) ==>
                 Describes(res.(trades := f'.value.trades, stats := ScaleStats(c, res.stats)),
                           ScaleRates(c, r), f'.value)
  {
    StrategiesAreUnitFree(s, closes, c);
    ScaleFinished(r, closes, Answers(s), trailPct, c);
    FinishedSolvent(r, closes, Answers(s), trailPct);
    var f := Finished(r, closes, Answers(s), trailPct).value;
    hide Finished, Answers;
    forall res | Describes(res, r, f)
      ensures Describes(res.(trades := ScaleBook(c, f).trades, stats := ScaleStats(c, res.stats)),
                        ScaleRates(c, r), ScaleBook(c, f))
    {
      ReportIgnoresScale(c, r, f, res);
    }
  }
}
