/** The figures all three engines report about a finished book. */
module Reporting {
  import opened Drawdown
  import opened Ledger
  import opened Reals

  /** The reported figures (unrounded); Sharpe, the annualised return and the buy-and-hold benchmark
      are not part of this model. */
  datatype Report = Report(totalReturn: real, maxDrawdown: real, winRate: real, profitFactor: real,
                           stats: Stats, trades: seq<Trade>, tradingDays: nat)

  function WinRate(s: Stats, sales: nat): real {
    if sales > 0 then s.wins as real / sales as real * 100.0 else 0.0
  }

  function ProfitFactor(s: Stats): real {
    var pf := if s.loss > 0.0 then s.profit / s.loss else if s.profit > 0.0 then 999.0 else 0.0;
    if pf < 999.0 then pf else 999.0
  }

  /** The report says what the book's log and curve say. */
  ghost predicate Describes(res: Report, r: Rates, b: Book) {
    && Positive(b.curve) && r.capital != 0.0
    && res.trades == b.trades && res.tradingDays == |b.curve|
    && res.stats == Tally(SalesOf(b.trades), BuysOf(b.trades))
    && res.winRate == WinRate(res.stats, |SalesOf(b.trades)|)
    && res.profitFactor == ProfitFactor(res.stats)
    && IsMaxDrawdown(b.curve, res.maxDrawdown) && -100.0 < res.maxDrawdown <= 0.0
    && res.totalReturn == Change(r.capital, FinalEquity(r, b)) && res.totalReturn > -100.0
  }

  method Summarize(r: Rates, b: Book) returns (res: Report)
    requires r.capital > 0.0 && Positive(b.curve)
    ensures Describes(res, r, b)
  {
    var finalEquity := if |b.curve| > 0 then b.curve[|b.curve| - 1] else r.capital;
    var dd := MaxDrawdown(b.curve, r.capital);
    var s, sales := WinLoss(b.trades);
    ChangeBounds(r.capital, finalEquity);
    ChangeIsRatio(r.capital, finalEquity);
    res := Report((finalEquity / r.capital - 1.0) * 100.0, dd, WinRate(s, sales), ProfitFactor(s),
                  s, b.trades, |b.curve|);
  }

  // ----- what the figures mean, entry by entry

  /** Of the first `n` round trips (entries 2j and 2j + 1) those sold above the price they were bought at. */
  ghost function Winners(log: seq<Trade>, n: nat): set<nat>
    requires 2 * n <= |log|
  {
    set j: nat | j < n && log[2 * j + 1].price > log[2 * j].price
  }

  /** What those won. */
  ghost function Won(log: seq<Trade>, n: nat): real
    requires 2 * n <= |log|
  {
    if n == 0 then 0.0
    else
      var up := log[2 * n - 1].price - log[2 * n - 2].price;
      Won(log, n - 1) + if up > 0.0 then up * log[2 * n - 1].shares as real else 0.0
  }

  /** What the others lost. */
  ghost function Lost(log: seq<Trade>, n: nat): real
    requires 2 * n <= |log|
  {
    if n == 0 then 0.0
    else
      var down := log[2 * n - 2].price - log[2 * n - 1].price;
      Lost(log, n - 1) + if down > 0.0 then down * log[2 * n - 1].shares as real else 0.0
  }

  lemma ScoreMeans(s: Stats, buy: Trade, sale: Trade)
    requires sale.shares > 0
    ensures var up := sale.price - buy.price;
            Score(s, buy, sale)
            == if up > 0.0 then Stats(s.wins + 1, s.losses, s.profit + up * sale.shares as real, s.loss)
               else Stats(s.wins, s.losses + 1, s.profit, s.loss + -up * sale.shares as real)
  {
    var up, n := sale.price - buy.price, sale.shares as real;
    if up > 0.0 { MulPositive(up, n); } else if up < 0.0 { MulPositive(-up, n); }
    assert -up * n == -(up * n);
  }

  /** The round trips of the first `n`, scored. */
  ghost predicate Scored(log: seq<Trade>, n: nat, s: Stats)
    requires 2 * n <= |log|
  {
    && s.wins == |Winners(log, n)| && s.wins + s.losses == n
    && s.profit == Won(log, n) && s.loss == Lost(log, n)
  }

  lemma OneMoreTrip(log: seq<Trade>, n: nat, s: Stats)
    requires 2 * n + 2 <= |log| && Scored(log, n, s) && log[2 * n + 1].shares > 0
    ensures Scored(log, n + 1, Score(s, log[2 * n], log[2 * n + 1]))
  {
    hide Score, Winners;
    WinnersGrow(log, n);
    ScoreMeans(s, log[2 * n], log[2 * n + 1]);
    var up := log[2 * n + 1].price - log[2 * n].price;
    assert Won(log, n + 1) == Won(log, n) + if up > 0.0 then up * log[2 * n + 1].shares as real else 0.0;
    assert Lost(log, n + 1) == Lost(log, n) + if -up > 0.0 then -up * log[2 * n + 1].shares as real else 0.0;
  }

  lemma WinnersGrow(log: seq<Trade>, n: nat)
    requires 2 * n + 2 <= |log|
    ensures |Winners(log, n + 1)| == |Winners(log, n)| + if log[2 * n + 1].price > log[2 * n].price then 1 else 0
  {
    var won := log[2 * n + 1].price > log[2 * n].price;
    assert Winners(log, n + 1) == if won then Winners(log, n) + {n} else Winners(log, n);
  }

  lemma {:induction false} FirstTrips(log: seq<Trade>, n: nat, sales: seq<Trade>, buys: seq<Trade>)
    requires Alternates(log) && 2 * n <= |log| && n <= |sales| && n <= |buys|
    requires forall j :: 0 <= j < n ==> buys[j] == log[j + j] && sales[j] == log[j + j + 1]
    ensures Scored(log, n, Tally(sales[..n], buys))
  {
    hide Score, Scored;
    if n == 0 {
      assert Winners(log, 0) == {};
      assert Scored(log, 0, Stats(0, 0, 0.0, 0.0)) by { NoTrips(log); }
    } else {
      var m: nat := n - 1;
      FirstTrips(log, m, sales, buys);
      assert sales[..n][..m] == sales[..m] && sales[..n][m] == sales[m];
      assert buys[m] == log[2 * m] && sales[m] == log[2 * m + 1];
      OneMoreTrip(log, m, Tally(sales[..m], buys));
    }
  }

  lemma NoTrips(log: seq<Trade>)
    ensures Scored(log, 0, Stats(0, 0, 0.0, 0.0))
  {
    assert Winners(log, 0) == {};
  }

  /** Wins and losses count the round trips by the two prices alone; profit and loss add them up. */
  lemma TallyMeans(log: seq<Trade>)
    requires Alternates(log)
    ensures Scored(log, |log| / 2, Tally(SalesOf(log), BuysOf(log)))
  {
    hide Scored, Tally;
    PairsLineUp(log);
    FirstTrips(log, |log| / 2, SalesOf(log), BuysOf(log));
    assert SalesOf(log)[..|log| / 2] == SalesOf(log);
  }

  // ----- and in total

  /** The share of winning trips in percent. */
  ghost predicate IsWinRate(rate: real, wins: nat, trips: nat) {
    if trips == 0 then rate == 0.0 else rate * trips as real == 100.0 * wins as real
  }

  /** Won over lost, capped at 999, and 999 when there was only profit. */
  ghost predicate IsProfitFactor(factor: real, won: real, lost: real) {
    if lost > 0.0 && won < 999.0 * lost then factor * lost == won
    else if lost > 0.0 || won > 0.0 then factor == 999.0 else factor == 0.0
  }

  /** `pct` percent of `from` is the way from `from` to `to`. */
  ghost predicate IsChange(from: real, to: real, pct: real) {
    pct * from == (to - from) * 100.0
  }

  /** The report in terms of the log's prices and shares and the curve's values. */
  lemma ReportMeans(res: Report, r: Rates, b: Book)
    requires Describes(res, r, b) && Alternates(b.trades) && r.capital > 0.0
    ensures Scored(b.trades, |b.trades| / 2, res.stats)
    ensures IsWinRate(res.winRate, res.stats.wins, |b.trades| / 2)
    ensures IsProfitFactor(res.profitFactor, res.stats.profit, res.stats.loss)
    ensures IsChange(r.capital, if b.curve == [] then r.capital else b.curve[|b.curve| - 1], res.totalReturn)
    ensures IsMaxDrawdown(b.curve, res.maxDrawdown)
  {
    hide *;
    Figures(res, r, b);
    TallyMeans(b.trades);
    PairsLineUp(b.trades);
    WinRateMeans(res.stats, |b.trades| / 2);
    ProfitFactorMeans(res.stats);
    ChangeMeans(r.capital, if b.curve == [] then r.capital else b.curve[|b.curve| - 1]);
  }

  lemma Figures(res: Report, r: Rates, b: Book)
    requires Describes(res, r, b) && r.capital > 0.0
    ensures res.stats == Tally(SalesOf(b.trades), BuysOf(b.trades))
    ensures res.winRate == WinRate(res.stats, |SalesOf(b.trades)|) && res.profitFactor == ProfitFactor(res.stats)
    ensures res.totalReturn == Change(r.capital, if b.curve == [] then r.capital else b.curve[|b.curve| - 1])
    ensures Positive(b.curve) && IsMaxDrawdown(b.curve, res.maxDrawdown)
  {
    hide Tally, SalesOf, BuysOf, WinRate, ProfitFactor, Change, IsMaxDrawdown;
  }

  lemma WinRateMeans(s: Stats, trips: nat)
    ensures IsWinRate(WinRate(s, trips), s.wins, trips)
  {
    if trips > 0 { PercentOf(s.wins as real, trips as real); }
  }

  lemma ProfitFactorMeans(s: Stats)
    ensures IsProfitFactor(ProfitFactor(s), s.profit, s.loss)
  {
    if s.loss > 0.0 {
      var q := s.profit / s.loss;
      assert Times(q, s.loss) == s.profit && Times(999.0, s.loss) == 999.0 * s.loss;
      TimesOrder(q, 999.0, s.loss);
    }
  }

  lemma PercentOf(x: real, n: real)
    requires n > 0.0
    ensures x / n * 100.0 * n == 100.0 * x
  {
    var q := x / n;
    assert q * n == x;
    assert q * 100.0 * n == 100.0 * (q * n);
  }

  lemma ChangeMeans(from: real, to: real)
    requires from > 0.0
    ensures IsChange(from, to, Change(from, to))
  {
    PercentOf(to - from, from);
  }

  /** The drawdown: no later value lies further below an earlier one, and some pair of days reaches it. */
  lemma DrawdownMeans(curve: seq<real>, dd: real)
    requires Positive(curve) && IsMaxDrawdown(curve, dd)
    ensures forall i, j :: 0 <= i <= j < |curve| ==> (curve[j] - curve[i]) * 100.0 >= Times(dd, curve[i])
    ensures curve != [] ==> exists i, j :: 0 <= i <= j < |curve| && IsChange(curve[i], curve[j], dd)
  {
    hide Change;
    forall i, j | 0 <= i <= j < |curve| ensures (curve[j] - curve[i]) * 100.0 >= Times(dd, curve[i]) {
      ChangeAgainst(curve[i], curve[j], dd);
    }
    hide Times, IsChange;
    if curve != [] {
      var i, j :| 0 <= i <= j < |curve| && dd == Change(curve[i], curve[j]);
      ChangeMeans(curve[i], curve[j]);
    }
  }
}
