/** The sector backfill: every listed stock with a known sector is linked to that sector's industry row,
    creating it when missing.  A dry run goes through the same loop without writing.

    `enrich_stock` is a fixed lookup; `stocks` holds the rows the market and symbol filter returned. */
module SectorBackfill {
  import opened Names
  import opened Options

  datatype Stock = Stock(id: int, symbol: string, industry: Option<nat>)

  datatype Stats = Stats(updated: nat, alreadySet: nat, noTaxonomy: nat, created: nat)

  const ZERO := Stats(0, 0, 0, 0)

  /** symbol -> sector; an absent symbol has no record, "" is a record without a sector. */
  type Taxonomy = map<string, string>

  predicate Known(tax: Taxonomy, s: Stock) {
    s.symbol in tax && tax[s.symbol] != ""
  }

  /** The industries table is the list of its names: row i has id i, and names are distinct.  Industry ids on
      stocks exist (foreign key). */
  ghost predicate Linked(stocks: seq<Stock>, names: seq<string>) {
    forall i :: 0 <= i < |stocks| && stocks[i].industry.Some? ==> stocks[i].industry.value < |names|
  }

  predicate LinkedTo(names: seq<string>, s: Stock, sector: string) {
    s.industry.Some? && s.industry.value < |names| && names[s.industry.value] == sector
  }

  // ----- what a run amounts to

  /** The sectors seen among the first n stocks, those without a row being created. */
  function NamesAfter(names: seq<string>, tax: Taxonomy, stocks: seq<Stock>, n: nat): seq<string>
    requires n <= |stocks|
  {
    if n == 0 then names
    else
      var before := NamesAfter(names, tax, stocks, n - 1);
      if Known(tax, stocks[n - 1]) && tax[stocks[n - 1].symbol] !in before
      then before + [tax[stocks[n - 1].symbol]] else before
  }

  /** The statistics after the first n stocks; the same for dry and real runs. */
  function StatsAfter(names: seq<string>, tax: Taxonomy, stocks: seq<Stock>, n: nat): Stats
    requires n <= |stocks|
  {
    if n == 0 then ZERO
    else
      var s, before := stocks[n - 1], NamesAfter(names, tax, stocks, n - 1);
      var known := Known(tax, s);
      Counted(StatsAfter(names, tax, stocks, n - 1), known, known && tax[s.symbol] !in before,
              known && LinkedTo(names, s, tax[s.symbol]))
  }

  /** One stock's contribution. */
  function Counted(t: Stats, known: bool, isNew: bool, linked: bool): Stats {
    if !known then t.(noTaxonomy := t.noTaxonomy + 1)
    else
      var u := t.(created := t.created + if isNew then 1 else 0);
      if linked then u.(alreadySet := u.alreadySet + 1) else u.(updated := u.updated + 1)
  }

  lemma OneMore(names: seq<string>, tax: Taxonomy, stocks: seq<Stock>, i: nat)
    requires i < |stocks|
    ensures var s, before := stocks[i], NamesAfter(names, tax, stocks, i);
            var known := Known(tax, s);
            var isNew := known && tax[s.symbol] !in before;
            && NamesAfter(names, tax, stocks, i + 1) == (if isNew then before + [tax[s.symbol]] else before)
            && StatsAfter(names, tax, stocks, i + 1)
               == Counted(StatsAfter(names, tax, stocks, i), known, isNew, known && LinkedTo(names, s, tax[s.symbol]))
  {
  }

  function LinkedStock(names: seq<string>, tax: Taxonomy, s: Stock): Stock {
    if Known(tax, s) && tax[s.symbol] in names then s.(industry := Some(IdOf(names, tax[s.symbol]))) else s
  }

  lemma {:induction false} NamesGrow(names: seq<string>, tax: Taxonomy, stocks: seq<Stock>, m: nat, n: nat)
    requires m <= n <= |stocks| && Distinct(names)
    ensures var a, b := NamesAfter(names, tax, stocks, m), NamesAfter(names, tax, stocks, n);
            && names <= a <= b && Distinct(b)
            && (forall k :: 0 <= k < n && Known(tax, stocks[k]) ==> tax[stocks[k].symbol] in b)
  {
    if m < n {
      NamesGrow(names, tax, stocks, m, n - 1);
    } else if n > 0 {
      NamesGrow(names, tax, stocks, n - 1, n - 1);
    }
  }

  /** Names are unique, so a name has one id, and later rows do not change it. */
  lemma IdIsStable(names: seq<string>, more: seq<string>, name: string)
    requires names <= more && Distinct(more) && name in names
    ensures name in more && IdOf(more, name) == IdOf(names, name)
  {
  }

  // ----- the figures and the rerun

  /** Every stock scanned is counted once, and `created` counts exactly the rows added. */
  lemma {:induction false} StatsAddUp(names: seq<string>, tax: Taxonomy, stocks: seq<Stock>, n: nat)
    requires n <= |stocks|
    ensures var t := StatsAfter(names, tax, stocks, n);
            && t.updated + t.alreadySet + t.noTaxonomy == n
            && t.created == |NamesAfter(names, tax, stocks, n)| - |names|
  {
    if n > 0 { StatsAddUp(names, tax, stocks, n - 1); }
  }

  /** The stocks among the first `n` that have a sector, and those of them that are linked to it already. */
  ghost function WithSector(tax: Taxonomy, stocks: seq<Stock>, n: nat): set<nat>
    requires n <= |stocks|
  {
    set i: nat | i < n && stocks[i].symbol in tax && tax[stocks[i].symbol] != ""
  }

  ghost function AlreadySet(names: seq<string>, tax: Taxonomy, stocks: seq<Stock>, n: nat): set<nat>
    requires n <= |stocks|
  {
    set i: nat | i < n && stocks[i].symbol in tax && tax[stocks[i].symbol] != "" && stocks[i].industry.Some?
                 && stocks[i].industry.value < |names| && names[stocks[i].industry.value] == tax[stocks[i].symbol]
  }

  /** The counters count stocks: without a sector, linked already, and the rest. */
  lemma {:induction false} StatsCountStocks(names: seq<string>, tax: Taxonomy, stocks: seq<Stock>, n: nat)
    requires n <= |stocks|
    ensures var t := StatsAfter(names, tax, stocks, n);
            && t.noTaxonomy == n - |WithSector(tax, stocks, n)| && t.alreadySet == |AlreadySet(names, tax, stocks, n)|
            && t.updated == |WithSector(tax, stocks, n)| - |AlreadySet(names, tax, stocks, n)|
  {
    if n > 0 {
      var m: nat := n - 1;
      StatsCountStocks(names, tax, stocks, m);
      WithSectorGrows(tax, stocks, m);
      AlreadySetGrows(names, tax, stocks, m);
      hide WithSector, AlreadySet, NamesAfter;
    }
  }

  lemma WithSectorGrows(tax: Taxonomy, stocks: seq<Stock>, n: nat)
    requires n < |stocks|
    ensures |WithSector(tax, stocks, n + 1)| == |WithSector(tax, stocks, n)| + if Known(tax, stocks[n]) then 1 else 0
  {
    var before := WithSector(tax, stocks, n);
    assert WithSector(tax, stocks, n + 1) == if Known(tax, stocks[n]) then before + {n} else before;
  }

  lemma AlreadySetGrows(names: seq<string>, tax: Taxonomy, stocks: seq<Stock>, n: nat)
    requires n < |stocks|
    ensures |AlreadySet(names, tax, stocks, n + 1)|
         == |AlreadySet(names, tax, stocks, n)|
            + if Known(tax, stocks[n]) && LinkedTo(names, stocks[n], tax[stocks[n].symbol]) then 1 else 0
  {
    var before := AlreadySet(names, tax, stocks, n);
    var linked := Known(tax, stocks[n]) && LinkedTo(names, stocks[n], tax[stocks[n].symbol]);
    assert AlreadySet(names, tax, stocks, n + 1) == if linked then before + {n} else before;
  }

  /** What a real run leaves behind (see RunBackfill). */
  ghost predicate IsBackfilled(names: seq<string>, tax: Taxonomy, stocks: seq<Stock>, names': seq<string>,
                               stocks': seq<Stock>) {
    && names' == NamesAfter(names, tax, stocks, |stocks|)
    && |stocks'| == |stocks|
    && forall i :: 0 <= i < |stocks| ==> stocks'[i] == LinkedStock(names', tax, stocks[i])
  }

  /** After a real run every stock with a known sector links to the industry of that name, and no other
      stock has changed. */
  lemma EveryKnownStockIsLinked(names: seq<string>, tax: Taxonomy, stocks: seq<Stock>, names': seq<string>,
                                stocks': seq<Stock>, i: nat)
    requires Distinct(names) && IsBackfilled(names, tax, stocks, names', stocks') && i < |stocks|
    ensures stocks'[i].symbol == stocks[i].symbol && stocks'[i].id == stocks[i].id
    ensures if Known(tax, stocks[i]) then LinkedTo(names', stocks'[i], tax[stocks[i].symbol])
            else stocks'[i] == stocks[i]
  {
    NamesGrow(names, tax, stocks, i + 1, |stocks|);
    NamesGrow(names, tax, stocks, i, i + 1);
    NamesGrow(names, tax, stocks, |stocks|, |stocks|);
  }

  /** A rerun updates and creates nothing: it finds every stock already set or without a sector. */
  lemma RerunChangesNothing(names: seq<string>, tax: Taxonomy, stocks: seq<Stock>, names': seq<string>,
                            stocks': seq<Stock>)
    requires Distinct(names) && IsBackfilled(names, tax, stocks, names', stocks')
    ensures var t := StatsAfter(names', tax, stocks', |stocks'|);
            && t.updated == 0 && t.created == 0 && t.alreadySet + t.noTaxonomy == |stocks'|
    ensures IsBackfilled(names', tax, stocks', names', stocks')
  {
    NamesGrow(names, tax, stocks, |stocks|, |stocks|);
    forall i | 0 <= i < |stocks|
      ensures Known(tax, stocks'[i]) ==> LinkedTo(names', stocks'[i], tax[stocks'[i].symbol])
      ensures stocks'[i] == LinkedStock(names', tax, stocks'[i])
    {
      EveryKnownStockIsLinked(names, tax, stocks, names', stocks', i);
    }
    NothingToDo(names', tax, stocks', |stocks'|);
    StatsAddUp(names', tax, stocks', |stocks'|);
  }

  lemma {:induction false} NothingToDo(names: seq<string>, tax: Taxonomy, stocks: seq<Stock>, n: nat)
    requires n <= |stocks|
    requires forall i :: 0 <= i < |stocks| && Known(tax, stocks[i]) ==>
               LinkedTo(names, stocks[i], tax[stocks[i].symbol])
    ensures NamesAfter(names, tax, stocks, n) == names
    ensures StatsAfter(names, tax, stocks, n).updated == 0
  {
    if n > 0 { NothingToDo(names, tax, stocks, n - 1); }
  }

  // ----- the script

  /** Counting a stock that has a sector. */
  method CountStock(t: Stats, created: bool, linked: bool) returns (u: Stats)
    ensures u == Counted(t, true, created, linked)
  {
    u := t;
    if created { u := u.(created := u.created + 1); }
    if linked {
      u := u.(alreadySet := u.alreadySet + 1);
    } else {
      u := u.(updated := u.updated + 1);
    }
  }

  class Database {
    var stocks: seq<Stock>
    var names: seq<string>

    constructor (stocks: seq<Stock>, names: seq<string>)
      ensures this.stocks == stocks && this.names == names
    {
      this.stocks, this.names := stocks, names;
    }

    /** Get-or-create for one sector: the cache first, then the table, then a new row (only planned on a
        dry run, where it has no id). */
    method Resolve(sector: string, dryRun: bool, cache: map<string, Option<nat>>)
      returns (cache': map<string, Option<nat>>, created: bool)
      requires Distinct(names) && (!dryRun ==> CacheOk(cache, names))
      modifies this`names
      ensures created <==> sector !in cache && sector !in old(names)
      ensures names == if created && !dryRun then old(names) + [sector] else old(names)
      ensures Distinct(names)
      ensures cache'.Keys == cache.Keys + {sector} && (!dryRun ==> CacheOk(cache', names))
    {
      cache', created := cache, false;
      if sector in cache { return; }
      if sector in names {
        cache' := cache[sector := Some(IdOf(names, sector))];
      } else {
        created := true;
        if !dryRun {
          CacheSurvives(cache, names, sector);
          LastId(names, sector);
          names := names + [sector];
          cache' := cache[sector := Some(|names| - 1)];
        } else {
          cache' := cache[sector := None];
        }
      }
    }

    /** One stock with a known sector; `linked` tells whether it already had the right industry. */
    method Process(tax: Taxonomy, dryRun: bool, i: nat, cache: map<string, Option<nat>>,
                   ghost names0: seq<string>, ghost stocks0: seq<Stock>)
      returns (cache': map<string, Option<nat>>, created: bool, linked: bool)
      requires i < |stocks0| && |stocks| == |stocks0| && Known(tax, stocks0[i])
      requires Reached(names0, stocks0, tax, dryRun, i, cache, names, stocks)
      modifies this
      ensures |stocks| == |stocks0| && Reached(names0, stocks0, tax, dryRun, i + 1, cache', names, stocks)
      ensures created <==> tax[stocks0[i].symbol] !in NamesAfter(names0, tax, stocks0, i)
      ensures linked <==> LinkedTo(names0, stocks0[i], tax[stocks0[i].symbol])
    {
      ghost var before, cached := names, cache;
      var s := stocks[i];
      assert s == stocks0[i];
      var sector := tax[s.symbol];
      cache', created := Resolve(sector, dryRun, cache);
      linked := LinkedTo(names, s, sector);
      if dryRun {
        DryStep(names0, stocks0, tax, i, cached, cache');
      } else {
        RealStep(names0, stocks0, tax, i, cached, before, stocks, cache', names);
        hide Reached, NamesAfter, LinkedTo;
        if !linked { stocks := stocks[i := s.(industry := cache'[sector])]; }
      }
    }

    /** `run_backfill` over those stocks.  Dry or real, the statistics are the same function of the
        database; a dry run writes nothing, a real one adds exactly the missing sectors and links exactly
        the stocks with a known sector. */
    method RunBackfill(tax: Taxonomy, dryRun: bool) returns (stats: Stats)
      requires Distinct(names) && Linked(stocks, names)
      modifies this
      ensures stats == StatsAfter(old(names), tax, old(stocks), |old(stocks)|)
      ensures if dryRun then stocks == old(stocks) && names == old(names)
              else IsBackfilled(old(names), tax, old(stocks), names, stocks)
      ensures Distinct(names) && Linked(stocks, names)
    {
      ghost var names0, stocks0 := names, stocks;
      stats := ZERO;
      var cache: map<string, Option<nat>> := map[];
      for i := 0 to |stocks|
        invariant |stocks| == |stocks0| && Reached(names0, stocks0, tax, dryRun, i, cache, names, stocks)
        invariant stats == StatsAfter(names0, tax, stocks0, i)
      {
        OneMore(names0, tax, stocks0, i);
        StillToDo(names0, stocks0, tax, dryRun, i, cache, names, stocks);
        hide *;
        var symbol := stocks[i].symbol;
        if symbol !in tax || tax[symbol] == "" {
          SkipStep(names0, stocks0, tax, dryRun, i, cache, names, stocks);
          CountedUnknown(stats);
          stats := stats.(noTaxonomy := stats.noTaxonomy + 1);
          continue;
        }
        var created: bool, linked: bool;
        cache, created, linked := Process(tax, dryRun, i, cache, names0, stocks0);
        stats := CountStock(stats, created, linked);
      }
    }
  }

  /** The loop's state after i stocks. */
  ghost predicate Reached(names0: seq<string>, stocks0: seq<Stock>, tax: Taxonomy, dryRun: bool, i: nat,
                          cache: map<string, Option<nat>>, names: seq<string>, stocks: seq<Stock>)
    requires i <= |stocks0|
  {
    var seen := NamesAfter(names0, tax, stocks0, i);
    && Distinct(names0) && Distinct(names) && Linked(stocks0, names0) && names0 <= seen
    && Covers(cache, names0, seen)
    && |stocks| == |stocks0|
    && (forall k :: i <= k < |stocks| ==> stocks[k] == stocks0[k])
    && if dryRun then names == names0 && stocks == stocks0
       else names == seen && CacheOk(cache, names) && LinkedSoFar(names, tax, stocks0, stocks, i)
  }

  ghost predicate LinkedSoFar(names: seq<string>, tax: Taxonomy, stocks0: seq<Stock>, stocks: seq<Stock>, i: nat)
    requires i <= |stocks0| == |stocks|
  {
    forall k :: 0 <= k < i ==> stocks[k] == LinkedStock(names, tax, stocks0[k])
  }

  lemma OneMoreLinked(names: seq<string>, more: seq<string>, tax: Taxonomy, stocks0: seq<Stock>, stocks: seq<Stock>,
                      i: nat)
    requires i < |stocks0| == |stocks| && LinkedSoFar(names, tax, stocks0, stocks, i)
    requires names <= more && Distinct(more)
    requires forall k :: 0 <= k < i && Known(tax, stocks0[k]) ==> tax[stocks0[k].symbol] in names
    ensures LinkedSoFar(more, tax, stocks0, stocks[i := LinkedStock(more, tax, stocks0[i])], i + 1)
  {
    hide LinkedStock, Distinct;
    forall k | 0 <= k < i ensures stocks[k] == LinkedStock(more, tax, stocks0[k]) {
      LinkedStockIsStable(names, more, tax, stocks0[k]);
    }
  }

  lemma StillToDo(names0: seq<string>, stocks0: seq<Stock>, tax: Taxonomy, dryRun: bool, i: nat,
                  cache: map<string, Option<nat>>, names: seq<string>, stocks: seq<Stock>)
    requires i < |stocks0| && Reached(names0, stocks0, tax, dryRun, i, cache, names, stocks)
    ensures |stocks| == |stocks0| && stocks[i] == stocks0[i]
    ensures Known(tax, stocks[i]) <==> stocks[i].symbol in tax && tax[stocks[i].symbol] != ""
  {
    hide NamesAfter, LinkedSoFar, Covers;
  }

  lemma SkipStep(names0: seq<string>, stocks0: seq<Stock>, tax: Taxonomy, dryRun: bool, i: nat,
                 cache: map<string, Option<nat>>, names: seq<string>, stocks: seq<Stock>)
    requires i < |stocks0| && Reached(names0, stocks0, tax, dryRun, i, cache, names, stocks)
    requires !Known(tax, stocks0[i])
    ensures Reached(names0, stocks0, tax, dryRun, i + 1, cache, names, stocks)
  {
    OneMore(names0, tax, stocks0, i);
    hide NamesAfter, Known;
  }

  lemma CountedUnknown(t: Stats)
    ensures Counted(t, false, false, false) == t.(noTaxonomy := t.noTaxonomy + 1)
  {
  }

  lemma DryStep(names0: seq<string>, stocks0: seq<Stock>, tax: Taxonomy, i: nat,
                cache: map<string, Option<nat>>, cache': map<string, Option<nat>>)
    requires i < |stocks0| && Known(tax, stocks0[i])
    requires Reached(names0, stocks0, tax, true, i, cache, names0, stocks0)
    requires cache'.Keys == cache.Keys + {tax[stocks0[i].symbol]}
    ensures Reached(names0, stocks0, tax, true, i + 1, cache', names0, stocks0)
  {
    OneMore(names0, tax, stocks0, i);
    hide NamesAfter, LinkedTo, IdOf;
  }

  /** The real run's step: what Resolve did to table and cache, followed by the link unless present. */
  lemma RealStep(names0: seq<string>, stocks0: seq<Stock>, tax: Taxonomy, i: nat,
                 cache: map<string, Option<nat>>, names: seq<string>, stocks: seq<Stock>,
                 cache': map<string, Option<nat>>, names': seq<string>)
    requires i < |stocks0| && Known(tax, stocks0[i])
    requires Reached(names0, stocks0, tax, false, i, cache, names, stocks)
    requires var sector := tax[stocks0[i].symbol];
             && cache'.Keys == cache.Keys + {sector} && Distinct(names') && CacheOk(cache', names')
             && names' == if sector !in names then names + [sector] else names
    ensures var s, sector := stocks0[i], tax[stocks0[i].symbol];
            var stocks' := if LinkedTo(names', s, sector) then stocks else stocks[i := s.(industry := cache'[sector])];
            && (LinkedTo(names', s, sector) <==> LinkedTo(names0, s, sector))
            && Reached(names0, stocks0, tax, false, i + 1, cache', names', stocks')
  {
    hide NamesAfter, IdOf, StatsAfter, LinkedSoFar, Distinct;
    var s, sector := stocks0[i], tax[stocks0[i].symbol];
    OneMore(names0, tax, stocks0, i);
    NamesGrow(names0, tax, stocks0, i, i);
    assert names <= names' && stocks[i] == s;
    LinkOfCache(names', tax, s, cache');
    if LinkedTo(names', s, sector) { AlreadyLinked(names', tax, s); }
    LinkIsOld(names0, names', s, sector);
    OneMoreLinked(names, names', tax, stocks0, stocks, i);
    hide LinkedStock, CacheOk, LinkedTo, Known, Linked;
    assert stocks[i := stocks[i]] == stocks;
  }

  lemma LinkOfCache(names: seq<string>, tax: Taxonomy, s: Stock, cache: map<string, Option<nat>>)
    requires Known(tax, s) && CacheOk(cache, names) && tax[s.symbol] in cache
    ensures LinkedStock(names, tax, s) == s.(industry := cache[tax[s.symbol]])
  {
    hide IdOf;
  }

  lemma LinkIsOld(names: seq<string>, more: seq<string>, s: Stock, sector: string)
    requires names <= more && (s.industry.Some? ==> s.industry.value < |names|)
    ensures LinkedTo(more, s, sector) <==> LinkedTo(names, s, sector)
  {
  }

  ghost predicate CacheOk(cache: map<string, Option<nat>>, names: seq<string>) {
    forall name :: name in cache ==> name in names && cache[name] == Some(IdOf(names, name))
  }

  /** The cached sectors are those resolved so far: with the original rows they make up the rows seen. */
  ghost predicate Covers(cache: map<string, Option<nat>>, names0: seq<string>, seen: seq<string>) {
    && (forall name :: name in cache ==> name in seen)
    && (forall name :: name in seen ==> name in cache || name in names0)
  }

  lemma CacheSurvives(cache: map<string, Option<nat>>, names: seq<string>, sector: string)
    requires Distinct(names) && CacheOk(cache, names) && sector !in names
    ensures CacheOk(cache, names + [sector])
  {
    forall name | name in cache ensures IdOf(names + [sector], name) == IdOf(names, name) {
      IdIsStable(names, names + [sector], name);
    }
  }

  lemma LastId(names: seq<string>, sector: string)
    requires sector !in names
    ensures IdOf(names + [sector], sector) == |names|
  {
  }

  lemma LinkedStockIsStable(names: seq<string>, more: seq<string>, tax: Taxonomy, s: Stock)
    requires names <= more && Distinct(more) && (Known(tax, s) ==> tax[s.symbol] in names)
    ensures LinkedStock(more, tax, s) == LinkedStock(names, tax, s)
  {
    if Known(tax, s) { IdIsStable(names, more, tax[s.symbol]); }
  }

  lemma AlreadyLinked(names: seq<string>, tax: Taxonomy, s: Stock)
    requires Distinct(names) && Known(tax, s) && LinkedTo(names, s, tax[s.symbol])
    ensures LinkedStock(names, tax, s) == s
  {
  }
}
