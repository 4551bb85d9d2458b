/** The 3NF migration (phases 2 and 4 to 8) and its inverse.

    A row type carries the columns of both schemas; a column that does not exist holds None (or "" for
    `note`).  `note` is the text column the migration drops: `market` of stock_prices, `industry` of
    stock_valuations and monthly_revenues.  Numeric type changes, timestamps and the users and
    notification phases are not modelled.  Industry ids are the insertion order. */
module Normalize3NF {
  import opened Names
  import opened Options

  datatype Stock = Stock(id: int, symbol: string, market: string, industry: Option<string>, industryId: Option<nat>)

  datatype Row = Row(symbol: Option<string>, stockId: Option<int>, key: string, note: string, payload: string)

  /** The four child tables. */
  datatype Children = Children(prices: seq<Row>, valuations: seq<Row>, margins: seq<Row>, revenues: seq<Row>)

  datatype Legacy = Legacy(stocks: seq<Stock>, children: Children)

  datatype Modern = Modern(industries: seq<string>, stocks: seq<Stock>, children: Children)

  datatype Error = InvalidMarket | DuplicateRevenue

  const MARKETS := {"TW_TWSE", "TW_TPEX", "US_NYSE", "US_NASDAQ"}

  // ----- the constraints

  ghost predicate StocksUnique(stocks: seq<Stock>) {
    forall i, j :: 0 <= i < j < |stocks| ==> stocks[i].id != stocks[j].id && stocks[i].symbol != stocks[j].symbol
  }

  /** UNIQUE (symbol, key) */
  ghost predicate UniqueBySymbol(rows: seq<Row>) {
    forall i, j :: 0 <= i < j < |rows| ==> !(rows[i].symbol == rows[j].symbol && rows[i].key == rows[j].key)
  }

  /** UNIQUE (stock_id, key) */
  predicate UniqueById(rows: seq<Row>) {
    forall i, j :: 0 <= i < j < |rows| ==> !(rows[i].stockId == rows[j].stockId && rows[i].key == rows[j].key)
  }

  ghost predicate OldRows(rows: seq<Row>) {
    forall i :: 0 <= i < |rows| ==> rows[i].symbol.Some? && rows[i].stockId.None?
  }

  ghost predicate ValidLegacy(db: Legacy) {
    && StocksUnique(db.stocks)
    && (forall i :: 0 <= i < |db.stocks| ==> db.stocks[i].industryId.None?)
    && OldRows(db.children.prices) && UniqueBySymbol(db.children.prices)
    && OldRows(db.children.valuations) && UniqueBySymbol(db.children.valuations)
    && OldRows(db.children.margins) && UniqueBySymbol(db.children.margins)
    && OldRows(db.children.revenues)
  }

  // ----- industries

  predicate Named(industry: Option<string>) {
    industry.Some? && industry.value != ""
  }

  /** INSERT ... ON CONFLICT (name) DO NOTHING */
  function AddName(names: seq<string>, industry: Option<string>): seq<string> {
    if Named(industry) && industry.value !in names then names + [industry.value] else names
  }

  function AddStockNames(names: seq<string>, stocks: seq<Stock>): seq<string> {
    if stocks == [] then names
    else AddName(AddStockNames(names, stocks[..|stocks| - 1]), stocks[|stocks| - 1].industry)
  }

  function AddNotes(names: seq<string>, rows: seq<Row>): seq<string> {
    if rows == [] then names else AddName(AddNotes(names, rows[..|rows| - 1]), Some(rows[|rows| - 1].note))
  }

  /** The industries table, filled from stocks, valuations and revenues in turn. */
  function IndustriesOf(db: Legacy): seq<string> {
    AddNotes(AddNotes(AddStockNames([], db.stocks), db.children.valuations), db.children.revenues)
  }

  lemma AddNameGrows(names: seq<string>, industry: Option<string>)
    requires Distinct(names) && "" !in names
    ensures var more := AddName(names, industry);
            && names <= more && Distinct(more) && "" !in more
            && forall x :: x in more <==> x in names || (x != "" && industry == Some(x))
  {
    if Named(industry) { assert forall x :: x in names + [industry.value] <==> x in names || x == industry.value; }
  }

  ghost predicate NamesStock(stocks: seq<Stock>, x: string) {
    x != "" && exists i :: 0 <= i < |stocks| && stocks[i].industry == Some(x)
  }

  ghost predicate Notes(rows: seq<Row>, x: string) {
    x != "" && exists i :: 0 <= i < |rows| && rows[i].note == x
  }

  lemma {:induction false} AddNotesAdds(names: seq<string>, rows: seq<Row>)
    requires Distinct(names) && "" !in names
    ensures var more := AddNotes(names, rows);
            && names <= more && Distinct(more) && "" !in more
            && forall x :: x in more <==> x in names || Notes(rows, x)
  {
    hide AddName, Distinct;
    if rows != [] {
      var n := |rows| - 1;
      AddNotesAdds(names, rows[..n]);
      AddNameGrows(AddNotes(names, rows[..n]), Some(rows[n].note));
      assert forall x :: Notes(rows, x) <==> Notes(rows[..n], x) || (x != "" && rows[n].note == x);
      hide Notes;
    }
  }

  lemma {:induction false} AddStockNamesAdds(stocks: seq<Stock>)
    ensures var names := AddStockNames([], stocks);
            && Distinct(names) && "" !in names
            && forall x :: x in names <==> NamesStock(stocks, x)
  {
    if stocks != [] {
      var n := |stocks| - 1;
      AddStockNamesAdds(stocks[..n]);
      AddNameGrows(AddStockNames([], stocks[..n]), stocks[n].industry);
      hide AddName, Distinct;
      assert forall x :: NamesStock(stocks, x)
                         <==> NamesStock(stocks[..n], x) || (x != "" && stocks[n].industry == Some(x));
      hide NamesStock;
    }
  }

  /** The industries table holds each name once, and exactly the non-empty names that a stock, a valuation or a
      revenue uses. */
  lemma IndustriesAreUsedNames(db: Legacy)
    ensures var names := IndustriesOf(db);
            && Distinct(names) && "" !in names
            && forall x :: x in names <==> NamesStock(db.stocks, x) || Notes(db.children.valuations, x)
                                           || Notes(db.children.revenues, x)
  {
    AddStockNamesAdds(db.stocks);
    var first := AddStockNames([], db.stocks);
    AddNotesAdds(first, db.children.valuations);
    AddNotesAdds(AddNotes(first, db.children.valuations), db.children.revenues);
    hide Notes, NamesStock, AddNotes, AddStockNames;
  }

  function LinkStock(names: seq<string>, s: Stock): Stock {
    s.(industry := None,
       industryId := if Named(s.industry) && s.industry.value in names then Some(IdOf(names, s.industry.value))
                     else None)
  }

  /** COALESCE of the linked name over a column that defaults to ''. */
  function UnlinkStock(names: seq<string>, s: Stock): Stock {
    var name := if s.industryId.Some? && s.industryId.value < |names| then names[s.industryId.value] else "";
    s.(industry := Some(name), industryId := None)
  }

  function Mapped(f: Stock -> Stock, stocks: seq<Stock>): (r: seq<Stock>)
    ensures |r| == |stocks| && forall i :: 0 <= i < |stocks| ==> r[i] == f(stocks[i])
  {
    seq(|stocks|, i requires 0 <= i < |stocks| => f(stocks[i]))
  }

  function Linked(names: seq<string>, stocks: seq<Stock>): seq<Stock> {
    Mapped(s => LinkStock(names, s), stocks)
  }

  function Unlinked(names: seq<string>, stocks: seq<Stock>): seq<Stock> {
    Mapped(s => UnlinkStock(names, s), stocks)
  }

  // ----- child tables

  /** The position of the stock with this symbol, or of the stock with this id. */
  function BySymbol(stocks: seq<Stock>, symbol: string): (i: Option<nat>)
    ensures i.Some? ==> i.value < |stocks| && stocks[i.value].symbol == symbol
    ensures i.None? ==> forall k :: 0 <= k < |stocks| ==> stocks[k].symbol != symbol
  {
    if stocks == [] then None
    else if stocks[|stocks| - 1].symbol == symbol then Some(|stocks| - 1)
    else BySymbol(stocks[..|stocks| - 1], symbol)
  }

  function ById(stocks: seq<Stock>, id: int): (i: Option<nat>)
    ensures i.Some? ==> i.value < |stocks| && stocks[i.value].id == id
    ensures i.None? ==> forall k :: 0 <= k < |stocks| ==> stocks[k].id != id
  {
    if stocks == [] then None
    else if stocks[|stocks| - 1].id == id then Some(|stocks| - 1)
    else ById(stocks[..|stocks| - 1], id)
  }

  predicate Matches(stocks: seq<Stock>, r: Row) {
    r.symbol.Some? && BySymbol(stocks, r.symbol.value).Some?
  }

  function Matching(stocks: seq<Stock>, rows: seq<Row>): seq<Row> {
    if rows == [] then []
    else Matching(stocks, rows[..|rows| - 1]) + if Matches(stocks, rows[|rows| - 1]) then [rows[|rows| - 1]] else []
  }

  /** A row of the new schema, from one that has a stock. */
  function UpRow(stocks: seq<Stock>, r: Row): Row
    requires Matches(stocks, r)
  {
    Row(None, Some(stocks[BySymbol(stocks, r.symbol.value).value].id), r.key, "", r.payload)
  }

  function UpRows(stocks: seq<Stock>, rows: seq<Row>): seq<Row> {
    if rows == [] then []
    else
      var r := rows[|rows| - 1];
      UpRows(stocks, rows[..|rows| - 1]) + if Matches(stocks, r) then [UpRow(stocks, r)] else []
  }

  /** A row of the old schema again; stock_prices takes its market back from the stock, the industry
      columns come back empty. */
  function DownRow(stocks: seq<Stock>, withMarket: bool, r: Row): Row {
    match r.stockId
    case None => r
    case Some(id) =>
      match ById(stocks, id)
      case None => r
      case Some(i) => Row(Some(stocks[i].symbol), None, r.key, if withMarket then stocks[i].market else "", r.payload)
  }

  function DownRows(stocks: seq<Stock>, withMarket: bool, rows: seq<Row>): (d: seq<Row>)
    ensures |d| == |rows| && forall i :: 0 <= i < |rows| ==> d[i] == DownRow(stocks, withMarket, rows[i])
  {
    seq(|rows|, i requires 0 <= i < |rows| => DownRow(stocks, withMarket, rows[i]))
  }

  /** What a surviving row looks like after both directions. */
  function Restored(stocks: seq<Stock>, withMarket: bool, r: Row): Row
    requires Matches(stocks, r)
  {
    r.(note := if withMarket then stocks[BySymbol(stocks, r.symbol.value).value].market else "")
  }

  /** The upgrade keeps exactly the rows whose symbol belongs to a stock, in order. */
  lemma {:induction false} UpgradeKeepsMatching(stocks: seq<Stock>, rows: seq<Row>)
    ensures var kept := Matching(stocks, rows);
            && |UpRows(stocks, rows)| == |kept|
            && forall i :: 0 <= i < |kept| ==>
                 Matches(stocks, kept[i]) && UpRows(stocks, rows)[i] == UpRow(stocks, kept[i])
    ensures forall r :: r in Matching(stocks, rows) <==> r in rows && Matches(stocks, r)
  {
    if rows != [] {
      UpgradeKeepsMatching(stocks, rows[..|rows| - 1]);
      assert rows == rows[..|rows| - 1] + [rows[|rows| - 1]];
    }
  }

  /** Symbols and ids identify the same stock. */
  lemma SameStock(stocks: seq<Stock>, r: Row, q: Row)
    requires StocksUnique(stocks) && Matches(stocks, r) && Matches(stocks, q)
    ensures UpRow(stocks, r).stockId == UpRow(stocks, q).stockId <==> r.symbol == q.symbol
    ensures ById(stocks, UpRow(stocks, r).stockId.value) == BySymbol(stocks, r.symbol.value)
  {
    hide BySymbol, ById;
  }

  /** Uniqueness carries over: the new constraint holds exactly when the surviving rows satisfied the
      old one. */
  lemma UniquenessCarriesOver(stocks: seq<Stock>, rows: seq<Row>)
    requires StocksUnique(stocks)
    ensures UniqueById(UpRows(stocks, rows)) <==> UniqueBySymbol(Matching(stocks, rows))
    ensures UniqueBySymbol(rows) ==> UniqueBySymbol(Matching(stocks, rows))
  {
    var up, kept := UpRows(stocks, rows), Matching(stocks, rows);
    UpgradeKeepsMatching(stocks, rows);
    forall i, j | 0 <= i < j < |kept|
      ensures (up[i].stockId == up[j].stockId && up[i].key == up[j].key)
              <==> (kept[i].symbol == kept[j].symbol && kept[i].key == kept[j].key)
    {
      SameStock(stocks, kept[i], kept[j]);
    }
    if UniqueBySymbol(rows) { MatchingKeepsUnique(stocks, rows); }
  }

  lemma {:induction false} MatchingKeepsUnique(stocks: seq<Stock>, rows: seq<Row>)
    requires UniqueBySymbol(rows)
    ensures UniqueBySymbol(Matching(stocks, rows))
  {
    if rows != [] {
      var n := |rows| - 1;
      var kept := Matching(stocks, rows[..n]);
      MatchingKeepsUnique(stocks, rows[..n]);
      UpgradeKeepsMatching(stocks, rows[..n]);
      forall i | 0 <= i < |kept| ensures !(kept[i].symbol == rows[n].symbol && kept[i].key == rows[n].key) {
        assert kept[i] in rows[..n];
      }
    }
  }

  /** Downgrading an upgraded table gives back the surviving rows, symbol, key and payload intact. */
  lemma TableRoundTrip(stocks: seq<Stock>, rows: seq<Row>, withMarket: bool)
    requires StocksUnique(stocks) && OldRows(rows)
    ensures var kept := Matching(stocks, rows);
            var back := DownRows(stocks, withMarket, UpRows(stocks, rows));
            && |back| == |kept|
            && forall i :: 0 <= i < |kept| ==>
                 Matches(stocks, kept[i]) && back[i] == Restored(stocks, withMarket, kept[i])
  {
    var kept := Matching(stocks, rows);
    UpgradeKeepsMatching(stocks, rows);
    forall i | 0 <= i < |kept|
      ensures DownRow(stocks, withMarket, UpRow(stocks, kept[i])) == Restored(stocks, withMarket, kept[i])
    {
      assert kept[i] in rows;
      SameStock(stocks, kept[i], kept[i]);
    }
  }

  /** Names and stocks survive: a linked stock downgrades to its own text, a NULL comes back as ''. */
  lemma StockRoundTrip(names: seq<string>, s: Stock)
    requires Named(s.industry) ==> s.industry.value in names
    requires s.industryId.None?
    ensures UnlinkStock(names, LinkStock(names, s))
         == s.(industry := Some(if s.industry.Some? then s.industry.value else ""))
  {
  }

  // ----- the migration

  function UpChildren(stocks: seq<Stock>, c: Children): Children {
    Children(UpRows(stocks, c.prices), UpRows(stocks, c.valuations), UpRows(stocks, c.margins),
             UpRows(stocks, c.revenues))
  }

  predicate MarketsValid(stocks: seq<Stock>) {
    forall i :: 0 <= i < |stocks| ==> stocks[i].market in MARKETS
  }

  /** Two surviving revenue rows of one stock and period, which only the new schema forbids. */
  ghost predicate DuplicatesSurvive(db: Legacy) {
    !UniqueBySymbol(Matching(db.stocks, db.children.revenues))
  }

  ghost function Upgraded(db: Legacy): Modern {
    var names := IndustriesOf(db);
    Modern(names, Linked(names, db.stocks), UpChildren(db.stocks, db.children))
  }

  ghost function Downgraded(db: Modern): Legacy {
    var s := Unlinked(db.industries, db.stocks);  // same ids, symbols and markets as db.stocks
    Legacy(s, Children(DownRows(s, true, db.children.prices), DownRows(s, false, db.children.valuations),
                       DownRows(s, false, db.children.margins), DownRows(s, false, db.children.revenues)))
  }

  /** Linking changes neither ids, symbols nor markets, so lookups see the same stocks. */
  lemma LookupsIgnoreIndustry(stocks: seq<Stock>, other: seq<Stock>, symbol: string, id: int)
    requires |stocks| == |other|
    requires forall i :: 0 <= i < |stocks| ==> stocks[i].id == other[i].id && stocks[i].symbol == other[i].symbol
    ensures BySymbol(stocks, symbol) == BySymbol(other, symbol)
    ensures ById(stocks, id) == ById(other, id)
  {
    if stocks != [] { LookupsIgnoreIndustry(stocks[..|stocks| - 1], other[..|other| - 1], symbol, id); }
  }

  lemma DownRowsIgnoreIndustry(stocks: seq<Stock>, other: seq<Stock>, withMarket: bool, rows: seq<Row>)
    requires |stocks| == |other|
    requires forall i :: 0 <= i < |stocks| ==>
               stocks[i].id == other[i].id && stocks[i].symbol == other[i].symbol && stocks[i].market == other[i].market
    ensures DownRows(stocks, withMarket, rows) == DownRows(other, withMarket, rows)
  {
    forall id: int { LookupsIgnoreIndustry(stocks, other, "", id); }
    hide ById, BySymbol;
  }

  /** What the two directions together do to a table: unmatched rows go, the dropped column is refilled. */
  function RoundTripped(stocks: seq<Stock>, withMarket: bool, rows: seq<Row>): seq<Row> {
    if rows == [] then []
    else
      var r := rows[|rows| - 1];
      RoundTripped(stocks, withMarket, rows[..|rows| - 1])
      + if Matches(stocks, r) then [Restored(stocks, withMarket, r)] else []
  }

  lemma {:induction false} RoundTrippedIsRestored(stocks: seq<Stock>, withMarket: bool, rows: seq<Row>)
    ensures var kept := Matching(stocks, rows); var r := RoundTripped(stocks, withMarket, rows);
            && |r| == |kept|
            && forall i :: 0 <= i < |kept| ==> Matches(stocks, kept[i]) && r[i] == Restored(stocks, withMarket, kept[i])
  {
    hide Restored, Matches;
    if rows != [] { RoundTrippedIsRestored(stocks, withMarket, rows[..|rows| - 1]); }
  }

  function WithText(s: Stock): Stock {
    s.(industry := Some(if s.industry.Some? then s.industry.value else ""))
  }

  /** Downgrade after upgrade: every stock with its industry text (NULL becomes ''), every child row that
      belongs to a stock, and nothing else. */
  lemma RoundTrip(db: Legacy)
    requires ValidLegacy(db)
    ensures var back := Downgraded(Upgraded(db)); var c := db.children;
            && back.stocks == Mapped(WithText, db.stocks)
            && back.children
               == Children(RoundTripped(db.stocks, true, c.prices), RoundTripped(db.stocks, false, c.valuations),
                           RoundTripped(db.stocks, false, c.margins), RoundTripped(db.stocks, false, c.revenues))
  {
    var names := IndustriesOf(db);
    var back := Unlinked(names, Linked(names, db.stocks));
    IndustriesAreUsedNames(db);
    hide IndustriesOf, BySymbol, ById;
    forall i | 0 <= i < |db.stocks| ensures back[i] == WithText(db.stocks[i]) {
      assert Named(db.stocks[i].industry) ==> NamesStock(db.stocks, db.stocks[i].industry.value);
      StockRoundTrip(names, db.stocks[i]);
    }
    assert back == Mapped(WithText, db.stocks);
    TableComesBack(db.stocks, back, true, db.children.prices);
    TableComesBack(db.stocks, back, false, db.children.valuations);
    TableComesBack(db.stocks, back, false, db.children.margins);
    TableComesBack(db.stocks, back, false, db.children.revenues);
  }

  lemma TableComesBack(stocks: seq<Stock>, back: seq<Stock>, withMarket: bool, rows: seq<Row>)
    requires StocksUnique(stocks) && OldRows(rows) && back == Mapped(WithText, stocks)
    ensures DownRows(back, withMarket, UpRows(stocks, rows)) == RoundTripped(stocks, withMarket, rows)
  {
    DownRowsIgnoreIndustry(stocks, back, withMarket, UpRows(stocks, rows));
    TableRoundTrip(stocks, rows, withMarket);
    RoundTrippedIsRestored(stocks, withMarket, rows);
    hide Matching, UpRows, Restored, Matches;
  }

  /** Every row has a stock, and its dropped column already holds what the downgrade writes. */
  ghost predicate Intact(stocks: seq<Stock>, withMarket: bool, rows: seq<Row>) {
    forall i :: 0 <= i < |rows| ==> Matches(stocks, rows[i]) && rows[i] == Restored(stocks, withMarket, rows[i])
  }

  lemma EmptyIsIntact(stocks: seq<Stock>, withMarket: bool)
    ensures Intact(stocks, withMarket, [])
  {
  }

  lemma IntactAppend(stocks: seq<Stock>, withMarket: bool, rows: seq<Row>, r: Row)
    ensures Intact(stocks, withMarket, rows + [r])
            <==> Intact(stocks, withMarket, rows) && Matches(stocks, r) && r == Restored(stocks, withMarket, r)
  {
    hide Restored, Matches;
    assert (rows + [r])[|rows|] == r;
    assert forall i :: 0 <= i < |rows| ==> (rows + [r])[i] == rows[i];
  }

  /** A table comes back exactly as it was if and only if it is intact. */
  lemma {:induction false} TableLosslessIff(stocks: seq<Stock>, withMarket: bool, rows: seq<Row>)
    ensures |RoundTripped(stocks, withMarket, rows)| <= |rows|
    ensures RoundTripped(stocks, withMarket, rows) == rows <==> Intact(stocks, withMarket, rows)
  {
    hide Restored, Matches, Intact;
    if rows != [] {
      var n := |rows| - 1;
      var all, r := RoundTripped(stocks, withMarket, rows), rows[n];
      var before := RoundTripped(stocks, withMarket, rows[..n]);
      TableLosslessIff(stocks, withMarket, rows[..n]);
      assert rows == rows[..n] + [r];
      if all == rows {
        assert Matches(stocks, r) && all == before + [Restored(stocks, withMarket, r)];
        assert before == all[..n] == rows[..n];
        assert r == all[n] == Restored(stocks, withMarket, r);
      }
      IntactAppend(stocks, withMarket, rows[..n], r);
    } else {
      EmptyIsIntact(stocks, withMarket);
    }
  }

  /** The two directions together change nothing if and only if no stock has a NULL industry, every child
      row has a stock, price rows carry their stock's market, and the dropped industry columns are empty. */
  lemma LosslessIff(db: Legacy)
    requires ValidLegacy(db)
    ensures var c := db.children;
            Downgraded(Upgraded(db)) == db
            <==> && (forall i :: 0 <= i < |db.stocks| ==> db.stocks[i].industry.Some?)
                 && Intact(db.stocks, true, c.prices) && Intact(db.stocks, false, c.valuations)
                 && Intact(db.stocks, false, c.margins) && Intact(db.stocks, false, c.revenues)
  {
    RoundTrip(db);
    TableLosslessIff(db.stocks, true, db.children.prices);
    TableLosslessIff(db.stocks, false, db.children.valuations);
    TableLosslessIff(db.stocks, false, db.children.margins);
    TableLosslessIff(db.stocks, false, db.children.revenues);
    hide Downgraded, Upgraded, RoundTripped, Matches, Restored;
    var texts := Mapped(WithText, db.stocks);
    assert texts == db.stocks <==> forall i :: 0 <= i < |db.stocks| ==> texts[i] == db.stocks[i];
  }

  const LISTED := Stock(1, "2330", "TW_TWSE", Some(""), None)

  /** A database that loses something although nothing is dropped: its only price row names another market than
      its stock. */
  lemma OtherMarketIsLost()
    ensures var price := Row(Some("2330"), None, "2024-01-02", "TW_TPEX", "1");
            var db := Legacy([LISTED], Children([price], [], [], []));
            && ValidLegacy(db) && MarketsValid(db.stocks) && !DuplicatesSurvive(db) && Matches(db.stocks, price)
            && Downgraded(Upgraded(db)) != db
  {
    var price := Row(Some("2330"), None, "2024-01-02", "TW_TPEX", "1");
    var stocks := [LISTED];
    assert BySymbol(stocks, "2330") == Some(0);
    assert Restored(stocks, true, price).note == "TW_TWSE";
    assert [price][0] == price && !Intact(stocks, true, [price]);
    LosslessIff(Legacy(stocks, Children([price], [], [], [])));
  }

  /** A legacy database that cannot be upgraded: two revenue rows of one stock and period. */
  lemma DuplicateRevenuesBlockUpgrade()
    ensures var row := Row(Some("2330"), None, "2024-01", "", "1");
            var db := Legacy([LISTED], Children([], [], [], [row, row]));
            ValidLegacy(db) && MarketsValid(db.stocks) && DuplicatesSurvive(db)
  {
    var row, stocks := Row(Some("2330"), None, "2024-01", "", "1"), [LISTED];
    assert BySymbol(stocks, "2330") == Some(0);
    assert [row, row][..1] == [row] && [row][..0] == [];
    assert Matching(stocks, [row]) == [row];
    assert Matching(stocks, [row, row]) == [row, row];
    assert [row, row][0] == [row, row][1];
  }

  /** The old unique constraints can be put back. */
  lemma DowngradeRestoresUniqueness(stocks: seq<Stock>, withMarket: bool, rows: seq<Row>)
    requires UniqueBySymbol(rows)
    ensures UniqueBySymbol(RoundTripped(stocks, withMarket, rows))
  {
    MatchingKeepsUnique(stocks, rows);
    RoundTrippedIsRestored(stocks, withMarket, rows);
  }

  // ----- the statements in order

  /** UPDATE child SET stock_id = s.id FROM stocks s WHERE child.symbol = s.symbol; DELETE ... WHERE
      stock_id IS NULL; then the old columns are dropped. */
  method UpgradeTable(stocks: seq<Stock>, rows: seq<Row>) returns (up: seq<Row>)
    requires OldRows(rows)
    ensures up == UpRows(stocks, rows)
  {
    var populated: seq<Row> := [];
    for i := 0 to |rows|
      invariant |populated| == i
      invariant forall k :: 0 <= k < i ==>
                  var id := if Matches(stocks, rows[k]) then UpRow(stocks, rows[k]).stockId else None;
                  populated[k] == rows[k].(stockId := id)
    {
      var s := BySymbol(stocks, rows[i].symbol.value);
      populated := populated + [if s.Some? then rows[i].(stockId := Some(stocks[s.value].id)) else rows[i]];
    }
    up := [];
    for i := 0 to |populated|
      invariant up == UpRows(stocks, rows[..i])
    {
      assert rows[..i + 1][..i] == rows[..i];
      if populated[i].stockId.Some? { up := up + [populated[i].(symbol := None, note := "")]; }
    }
    assert rows[..|rows|] == rows;
  }

  /** The upgrade: it fails, changing nothing, exactly when a market is not one of the four or duplicate
      revenue rows of one stock and period survive; the three other unique constraints always hold. */
  method Upgrade(db: Legacy) returns (r: Result<Modern, Error>)
    requires ValidLegacy(db)
    ensures r == Err(InvalidMarket)
            <==> exists i :: 0 <= i < |db.stocks|
                             && db.stocks[i].market !in {"TW_TWSE", "TW_TPEX", "US_NYSE", "US_NASDAQ"}
    ensures r == Err(DuplicateRevenue) <==> MarketsValid(db.stocks) && DuplicatesSurvive(db)
    ensures r.Ok? ==>
              && r.value == Upgraded(db)
              && UniqueById(r.value.children.prices) && UniqueById(r.value.children.valuations)
              && UniqueById(r.value.children.margins) && UniqueById(r.value.children.revenues)
  {
    var names: seq<string> := [];
    for i := 0 to |db.stocks|
      invariant names == AddStockNames([], db.stocks[..i])
    {
      assert db.stocks[..i + 1][..i] == db.stocks[..i];
      var name := db.stocks[i].industry;
      if name.Some? && name.value != "" && name.value !in names { names := names + [name.value]; }
    }
    assert db.stocks[..|db.stocks|] == db.stocks;
    names := InsertNotes(names, db.children.valuations);
    names := InsertNotes(names, db.children.revenues);
    if !MarketsValid(db.stocks) { return Err(InvalidMarket); }
    var prices := UpgradeTable(db.stocks, db.children.prices);
    var valuations := UpgradeTable(db.stocks, db.children.valuations);
    var margins := UpgradeTable(db.stocks, db.children.margins);
    var revenues := UpgradeTable(db.stocks, db.children.revenues);
    UniquenessCarriesOver(db.stocks, db.children.prices);
    UniquenessCarriesOver(db.stocks, db.children.valuations);
    UniquenessCarriesOver(db.stocks, db.children.margins);
    UniquenessCarriesOver(db.stocks, db.children.revenues);
    if !UniqueById(revenues) { return Err(DuplicateRevenue); }
    r := Ok(Modern(names, Linked(names, db.stocks), Children(prices, valuations, margins, revenues)));
  }

  method InsertNotes(names: seq<string>, rows: seq<Row>) returns (more: seq<string>)
    ensures more == AddNotes(names, rows)
  {
    more := names;
    for i := 0 to |rows|
      invariant more == AddNotes(names, rows[..i])
    {
      assert rows[..i + 1][..i] == rows[..i];
      if rows[i].note != "" && rows[i].note !in more { more := more + [rows[i].note]; }
    }
    assert rows[..|rows|] == rows;
  }

  /** UPDATE child SET symbol = s.symbol (, market = s.market) FROM stocks s WHERE child.stock_id = s.id */
  method DowngradeTable(stocks: seq<Stock>, withMarket: bool, rows: seq<Row>) returns (down: seq<Row>)
    ensures down == DownRows(stocks, withMarket, rows)
  {
    down := [];
    for i := 0 to |rows|
      invariant |down| == i && forall k :: 0 <= k < i ==> down[k] == DownRow(stocks, withMarket, rows[k])
    {
      var r := rows[i];
      if r.stockId.Some? {
        var s := ById(stocks, r.stockId.value);
        if s.Some? {
          var note := if withMarket then stocks[s.value].market else "";
          r := r.(symbol := Some(stocks[s.value].symbol), stockId := None, note := note);
        }
      }
      down := down + [r];
    }
  }

  /** The downgrade, child tables first and stocks last. */
  method Downgrade(db: Modern) returns (legacy: Legacy)
    ensures legacy == Downgraded(db)
  {
    var revenues := DowngradeTable(db.stocks, false, db.children.revenues);
    var margins := DowngradeTable(db.stocks, false, db.children.margins);
    var valuations := DowngradeTable(db.stocks, false, db.children.valuations);
    var prices := DowngradeTable(db.stocks, true, db.children.prices);
    var stocks := Unlinked(db.industries, db.stocks);
    DownRowsIgnoreIndustry(db.stocks, stocks, false, db.children.revenues);
    DownRowsIgnoreIndustry(db.stocks, stocks, false, db.children.margins);
    DownRowsIgnoreIndustry(db.stocks, stocks, false, db.children.valuations);
    DownRowsIgnoreIndustry(db.stocks, stocks, true, db.children.prices);
    legacy := Legacy(stocks, Children(prices, valuations, margins, revenues));
  }
}
