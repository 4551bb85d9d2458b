/** Orphan reconciliation: child rows of mis-suffixed stocks are repointed to the canonical twin by a
    set-based UPDATE, what is left on the orphans is deleted, and the orphans are switched off.

    A statement's WHERE is evaluated on the table as it was before the statement.  The natural keys are
    taken to be unique per stock, as the ORM models declare. */
module Reconcile {
  import opened Options

  datatype Stock = Stock(id: int, symbol: string, active: bool)

  /** A child row: `stock` may be NULL (sync_states), `key` is the rest of the natural key. */
  datatype Row = Row(stock: Option<int>, key: seq<string>, payload: string)

  type Table = seq<Row>

  /** orphan id -> canonical id: the temp table `_omap`. */
  type OrphanMap = map<int, int>

  /** `symbol.split(".")[0]` */
  function StockNumber(symbol: string): string {
    if symbol == "" || symbol[0] == '.' then "" else [symbol[0]] + StockNumber(symbol[1..])
  }

  ghost predicate StocksUnique(stocks: seq<Stock>) {
    forall i, j :: 0 <= i < j < |stocks| ==> stocks[i].id != stocks[j].id && stocks[i].symbol != stocks[j].symbol
  }

  /** The stock is an active orphan and the stock `twin` carries its canonical symbol. */
  predicate IsTwin(canon: map<string, string>, orphan: Stock, twin: Stock) {
    var sid := StockNumber(orphan.symbol);
    sid in canon && canon[sid] != "" && orphan.symbol != canon[sid] && twin.symbol == canon[sid] && orphan.active
  }

  /** `m` holds exactly the pairs of active orphans and their twins. */
  ghost predicate IsMapping(stocks: seq<Stock>, canon: map<string, string>, m: OrphanMap) {
    && (forall i, j :: 0 <= i < |stocks| && 0 <= j < |stocks| && IsTwin(canon, stocks[i], stocks[j]) ==>
          stocks[i].id in m && m[stocks[i].id] == stocks[j].id)
    && (forall o :: o in m ==> Explained(stocks, canon, o, m[o]))
  }

  ghost predicate Explained(stocks: seq<Stock>, canon: map<string, string>, orphan: int, twin: int) {
    exists i, j :: 0 <= i < |stocks| && 0 <= j < |stocks| && IsTwin(canon, stocks[i], stocks[j])
                   && stocks[i].id == orphan && stocks[j].id == twin
  }

  // ----- one child table

  predicate At(r: Row, stock: int, key: seq<string>) {
    r.stock == Some(stock) && r.key == key
  }

  predicate Orphaned(r: Row, m: OrphanMap) {
    r.stock.Some? && r.stock.value in m
  }

  predicate Holds(t: Table, stock: int, key: seq<string>) {
    exists i :: 0 <= i < |t| && At(t[i], stock, key)
  }

  /** The UPDATE's WHERE: on an orphan, and the canonical stock has no row with this key. */
  predicate Moves(t: Table, m: OrphanMap, r: Row) {
    Orphaned(r, m) && !Holds(t, m[r.stock.value], r.key)
  }

  function MovedRow(t: Table, m: OrphanMap, r: Row): Row {
    if Moves(t, m, r) then r.(stock := Some(m[r.stock.value])) else r
  }

  /** The table after the UPDATE. */
  function Updated(t: Table, m: OrphanMap): (u: Table)
    ensures |u| == |t| && forall i :: 0 <= i < |t| ==> u[i] == MovedRow(t, m, t[i])
  {
    seq(|t|, i requires 0 <= i < |t| => MovedRow(t, m, t[i]))
  }

  /** The table after the DELETE. */
  function WithoutOrphans(t: Table, m: OrphanMap): Table {
    if t == [] then []
    else WithoutOrphans(t[..|t| - 1], m) + if Orphaned(t[|t| - 1], m) then [] else [t[|t| - 1]]
  }

  function Repointed(t: Table, m: OrphanMap): Table {
    WithoutOrphans(Updated(t, m), m)
  }

  function CountMoves(t: Table, m: OrphanMap, n: nat): nat
    requires n <= |t|
  {
    if n == 0 then 0 else CountMoves(t, m, n - 1) + if Moves(t, m, t[n - 1]) then 1 else 0
  }

  function CountOrphaned(t: Table, m: OrphanMap): nat {
    if t == [] then 0 else CountOrphaned(t[..|t| - 1], m) + if Orphaned(t[|t| - 1], m) then 1 else 0
  }

  /** UNIQUE (stock_id, key), which NULL stocks do not take part in. */
  predicate Unique(t: Table) {
    forall i, j :: 0 <= i < j < |t| && t[i].stock.Some? ==> !(t[j].stock == t[i].stock && t[j].key == t[i].key)
  }

  /** Two rows of different orphans want the same free place. */
  ghost predicate Clash(t: Table, m: OrphanMap) {
    exists i, j :: 0 <= i < j < |t| && Moves(t, m, t[i]) && Moves(t, m, t[j])
                   && m[t[i].stock.value] == m[t[j].stock.value] && t[i].key == t[j].key
  }

  /** A row waits on an orphan whose canonical stock is itself an orphan. */
  ghost predicate Chained(t: Table, m: OrphanMap) {
    exists i :: 0 <= i < |t| && Orphaned(t[i], m) && m[t[i].stock.value] in m
  }

  /** The UPDATE runs into the unique constraint exactly when two orphans of one canonical stock share a
      key that the canonical stock lacks. */
  lemma UpdateViolatesIffClash(t: Table, m: OrphanMap)
    requires Unique(t)
    ensures Unique(Updated(t, m)) <==> !Clash(t, m)
  {
    var u := Updated(t, m);
    if Clash(t, m) {
      var i, j :| 0 <= i < j < |t| && Moves(t, m, t[i]) && Moves(t, m, t[j])
                  && m[t[i].stock.value] == m[t[j].stock.value] && t[i].key == t[j].key;
      assert u[j].stock == u[i].stock && u[j].key == u[i].key && u[i].stock.Some?;
    } else {
      forall i, j | 0 <= i < j < |t| && u[i].stock.Some?
        ensures !(u[j].stock == u[i].stock && u[j].key == u[i].key)
      {
        if Moves(t, m, t[i]) && !Moves(t, m, t[j]) {
          assert !At(t[j], m[t[i].stock.value], t[i].key);
        } else if !Moves(t, m, t[i]) && Moves(t, m, t[j]) {
          assert !At(t[i], m[t[j].stock.value], t[j].key);
        }
      }
    }
  }

  /** What the DELETE keeps. */
  lemma {:induction false} DeleteKeeps(t: Table, m: OrphanMap, r: Row)
    ensures r in WithoutOrphans(t, m) <==> r in t && !Orphaned(r, m)
  {
    if t != [] {
      DeleteKeeps(t[..|t| - 1], m, r);
      assert t == t[..|t| - 1] + [t[|t| - 1]];
    }
  }

  lemma {:induction false} DeleteKeepsUnique(t: Table, m: OrphanMap)
    requires Unique(t)
    ensures Unique(WithoutOrphans(t, m))
  {
    if t != [] {
      var n := |t| - 1;
      var kept := WithoutOrphans(t[..n], m);
      DeleteKeepsUnique(t[..n], m);
      forall k | 0 <= k < |kept| && kept[k].stock.Some?
        ensures !(t[n].stock == kept[k].stock && t[n].key == kept[k].key)
      {
        DeleteKeeps(t[..n], m, kept[k]);
        var i :| 0 <= i < n && t[..n][i] == kept[k];
        assert t[i] == kept[k];
      }
    }
  }

  /** The (stock, key) pairs present. */
  ghost function Keys(t: Table): set<(int, seq<string>)> {
    set i | 0 <= i < |t| && t[i].stock.Some? :: (t[i].stock.value, t[i].key)
  }

  ghost function Canonical(m: OrphanMap, stock: int): int {
    if stock in m then m[stock] else stock
  }

  /** The pairs that ought to be present: every row under its canonical stock. */
  ghost function CanonicalKeys(t: Table, m: OrphanMap): set<(int, seq<string>)> {
    set i | 0 <= i < |t| && t[i].stock.Some? :: (Canonical(m, t[i].stock.value), t[i].key)
  }

  lemma InKeys(t: Table, p: (int, seq<string>))
    ensures p in Keys(t) <==> exists r :: r in t && At(r, p.0, p.1)
  {
    if p in Keys(t) {
      var i :| 0 <= i < |t| && t[i].stock.Some? && (t[i].stock.value, t[i].key) == p;
      assert t[i] in t && At(t[i], p.0, p.1);
    }
  }

  /** A row that should appear under its canonical stock does, unless that stock is an orphan too. */
  lemma RowSurvives(t: Table, m: OrphanMap, i: nat)
    requires i < |t| && t[i].stock.Some?
    ensures var p := (Canonical(m, t[i].stock.value), t[i].key);
            p in Keys(Repointed(t, m)) <==> p.0 !in m
  {
    var u := Updated(t, m);
    var p := (Canonical(m, t[i].stock.value), t[i].key);
    forall r { DeleteKeeps(u, m, r); }
    InKeys(Repointed(t, m), p);
    if p.0 !in m {
      if Moves(t, m, t[i]) {
        assert At(u[i], p.0, p.1) && u[i] in u;
      } else if Orphaned(t[i], m) {
        var k :| 0 <= k < |t| && At(t[k], p.0, p.1);
        assert u[k] == t[k] && u[k] in u;
      } else {
        assert u[i] == t[i] && u[i] in u;
      }
    }
  }

  /** Nothing appears that should not. */
  lemma NothingInvented(t: Table, m: OrphanMap, p: (int, seq<string>))
    requires p in Keys(Repointed(t, m))
    ensures p in CanonicalKeys(t, m) && p.0 !in m
  {
    var u := Updated(t, m);
    forall r { DeleteKeeps(u, m, r); }
    InKeys(Repointed(t, m), p);
    var r :| r in Repointed(t, m) && At(r, p.0, p.1);
    assert r in u && !Orphaned(r, m);
    var i :| 0 <= i < |u| && u[i] == r;
    assert t[i].stock.Some? && (Canonical(m, t[i].stock.value), t[i].key) == p;
  }

  /** No natural key is lost, and none is invented, if and only if no row waits on an orphan whose
      canonical stock is itself being folded away. */
  lemma NoKeyLostIffNoChain(t: Table, m: OrphanMap)
    ensures Keys(Repointed(t, m)) == CanonicalKeys(t, m) <==> !Chained(t, m)
  {
    if Chained(t, m) {
      var i :| 0 <= i < |t| && Orphaned(t[i], m) && m[t[i].stock.value] in m;
      RowSurvives(t, m, i);
      assert (Canonical(m, t[i].stock.value), t[i].key) in CanonicalKeys(t, m);
    } else {
      forall p ensures p in Keys(Repointed(t, m)) <==> p in CanonicalKeys(t, m) {
        if p in CanonicalKeys(t, m) {
          var i :| 0 <= i < |t| && t[i].stock.Some? && (Canonical(m, t[i].stock.value), t[i].key) == p;
          RowSurvives(t, m, i);
        }
        if p in Keys(Repointed(t, m)) { NothingInvented(t, m, p); }
      }
    }
  }

  /** Rows that were never on an orphan are left exactly as they were, moved rows change nothing but
      their stock, and no row is left on an orphan. */
  lemma RowsAfterRepoint(t: Table, m: OrphanMap, r: Row)
    ensures r in t && !Orphaned(r, m) ==> r in Repointed(t, m)
    ensures r in Repointed(t, m) ==> !Orphaned(r, m)
    ensures r in Repointed(t, m) ==>
              r in t || exists q :: q in t && Moves(t, m, q) && r == q.(stock := Some(m[q.stock.value]))
  {
    var u := Updated(t, m);
    DeleteKeeps(u, m, r);
    if r in t && !Orphaned(r, m) {
      var i :| 0 <= i < |t| && t[i] == r;
      assert u[i] == r;
    }
    if r in u && r !in t {
      var i :| 0 <= i < |u| && u[i] == r;
      assert t[i] in t && Moves(t, m, t[i]);
    }
  }

  /** Without a clash the natural key stays unique. */
  lemma RepointKeepsUnique(t: Table, m: OrphanMap)
    requires Unique(t) && !Clash(t, m)
    ensures Unique(Repointed(t, m))
  {
    UpdateViolatesIffClash(t, m);
    DeleteKeepsUnique(Updated(t, m), m);
  }

  /** A row that the UPDATE moves onto a stock that is an orphan itself, from which the DELETE drops it. */
  predicate MovesInVain(t: Table, m: OrphanMap, r: Row) {
    Moves(t, m, r) && m[r.stock.value] in m
  }

  function CountInVain(t: Table, m: OrphanMap, n: nat): nat
    requires n <= |t|
  {
    if n == 0 then 0 else CountInVain(t, m, n - 1) + if MovesInVain(t, m, t[n - 1]) then 1 else 0
  }

  lemma {:induction false} CountsUpTo(t: Table, m: OrphanMap, n: nat)
    requires n <= |t|
    ensures CountMoves(t, m, n) + CountOrphaned(Updated(t, m)[..n], m)
            == CountOrphaned(t[..n], m) + CountInVain(t, m, n)
    ensures CountInVain(t, m, n) == 0 <==> forall i :: 0 <= i < n ==> !MovesInVain(t, m, t[i])
  {
    if n > 0 {
      CountsUpTo(t, m, n - 1);
      assert t[..n][..n - 1] == t[..n - 1];
      assert Updated(t, m)[..n][..n - 1] == Updated(t, m)[..n - 1];
    }
  }

  /** Moved + dropped exceeds the orphan rows by those moved in vain; so every orphan row is counted once, moved or
      dropped, exactly if none is moved onto an orphan. */
  lemma MovedPlusDropped(t: Table, m: OrphanMap)
    ensures CountMoves(t, m, |t|) + CountOrphaned(Updated(t, m), m) == CountOrphaned(t, m) + CountInVain(t, m, |t|)
    ensures CountMoves(t, m, |t|) + CountOrphaned(Updated(t, m), m) == CountOrphaned(t, m)
            <==> forall i :: 0 <= i < |t| ==> !MovesInVain(t, m, t[i])
    ensures !Chained(t, m) ==> CountInVain(t, m, |t|) == 0
  {
    CountsUpTo(t, m, |t|);
    assert t[..|t|] == t && Updated(t, m)[..|t|] == Updated(t, m);
  }

  // ----- the mapping

  /** If every canonical symbol keeps the number it is listed under, no canonical stock is an orphan, so
      no row can be chained. */
  lemma NumbersKeptMeansNoChain(stocks: seq<Stock>, canon: map<string, string>, m: OrphanMap, t: Table)
    requires StocksUnique(stocks) && IsMapping(stocks, canon, m)
    requires forall sid :: sid in canon && canon[sid] != "" ==> StockNumber(canon[sid]) == sid
    ensures forall o :: o in m ==> m[o] !in m
    ensures !Chained(t, m)
  {
    forall o | o in m ensures m[o] !in m {
      assert Explained(stocks, canon, o, m[o]);
      var i, j :| 0 <= i < |stocks| && 0 <= j < |stocks| && IsTwin(canon, stocks[i], stocks[j])
                  && stocks[i].id == o && stocks[j].id == m[o];
      assert forall k :: 0 <= k < |stocks| ==> !IsTwin(canon, stocks[j], stocks[k]);
      assert forall twin :: !Explained(stocks, canon, stocks[j].id, twin);
    }
  }

  /** Without that condition rows can be lost: 1 is listed as 2.A and 2 as 2.B, and the row moved from the
      first stock to the second is deleted with the second stock's leftovers. */
  lemma ChainLosesKeys() returns (stocks: seq<Stock>, canon: map<string, string>, m: OrphanMap, t: Table)
    ensures StocksUnique(stocks) && IsMapping(stocks, canon, m) && Unique(t) && !Clash(t, m)
    ensures Keys(t) == {(1, ["2024-01-02"])} && Keys(Repointed(t, m)) == {}
  {
    var a, b, c := Stock(1, "1", true), Stock(2, "2.A", true), Stock(3, "2.B", true);
    stocks := [a, b, c];
    canon := map["1" := "2.A", "2" := "2.B"];
    m := map[1 := 2, 2 := 3];
    t := [Row(Some(1), ["2024-01-02"], "close")];
    hide IsMapping, Unique, Clash, Keys, Repointed;
    ChainIsMapping(a, b, c, canon, m);
    ChainedRowIsDeleted(m, t);
  }

  lemma ChainIsMapping(a: Stock, b: Stock, c: Stock, canon: map<string, string>, m: OrphanMap)
    requires a == Stock(1, "1", true) && b == Stock(2, "2.A", true) && c == Stock(3, "2.B", true)
    requires canon == map["1" := "2.A", "2" := "2.B"] && m == map[1 := 2, 2 := 3]
    ensures IsMapping([a, b, c], canon, m)
  {
    var stocks := [a, b, c];
    assert StockNumber("1") == "1" && StockNumber("2.A") == "2" && StockNumber("2.B") == "2";
    assert IsTwin(canon, stocks[0], stocks[1]) && IsTwin(canon, stocks[1], stocks[2]);
  }

  lemma ChainedRowIsDeleted(m: OrphanMap, t: Table)
    requires m == map[1 := 2, 2 := 3] && t == [Row(Some(1), ["2024-01-02"], "close")]
    ensures Unique(t) && !Clash(t, m) && Keys(t) == {(1, ["2024-01-02"])} && Keys(Repointed(t, m)) == {}
  {
    var u := Updated(t, m);
    assert Moves(t, m, t[0]);
    assert u == [Row(Some(2), ["2024-01-02"], "close")];
    assert u[..0] == [] && WithoutOrphans(u, m) == [];
  }

  /** And the UPDATE can fail: two orphans of one canonical stock hold a key it lacks. */
  lemma TwoOrphansClash() returns (stocks: seq<Stock>, canon: map<string, string>, m: OrphanMap, t: Table)
    ensures StocksUnique(stocks) && IsMapping(stocks, canon, m) && Unique(t)
    ensures Clash(t, m) && !Unique(Updated(t, m))
  {
    var a, b, c := Stock(1, "1.TW", true), Stock(2, "1.TWO", true), Stock(3, "1.X", true);
    stocks, canon, m := [a, b, c], map["1" := "1.X"], map[1 := 3, 2 := 3];
    t := [Row(Some(1), ["2024-01-02"], "x"), Row(Some(2), ["2024-01-02"], "y")];
    NumbersOfTwins();
    assert IsTwin(canon, stocks[0], stocks[2]) && IsTwin(canon, stocks[1], stocks[2]);
    assert IsMapping(stocks, canon, m) by { hide StockNumber; }
    assert Moves(t, m, t[0]) && Moves(t, m, t[1]);
    UpdateViolatesIffClash(t, m);
  }

  lemma NumbersOfTwins()
    ensures StockNumber("1.TW") == "1" && StockNumber("1.TWO") == "1" && StockNumber("1.X") == "1"
  {
  }

  function BySymbol(stocks: seq<Stock>): map<string, int> {
    if stocks == [] then map[]
    else BySymbol(stocks[..|stocks| - 1])[stocks[|stocks| - 1].symbol := stocks[|stocks| - 1].id]
  }

  /** The loop body: this stock's entry, if it is an active orphan with an existing twin. */
  predicate Listed(canon: map<string, string>, bySymbol: map<string, int>, s: Stock) {
    var sid := StockNumber(s.symbol);
    sid in canon && canon[sid] != "" && s.symbol != canon[sid] && canon[sid] in bySymbol && s.active
  }

  function Collect(canon: map<string, string>, bySymbol: map<string, int>, stocks: seq<Stock>): OrphanMap {
    if stocks == [] then map[]
    else
      var s := stocks[|stocks| - 1];
      var m := Collect(canon, bySymbol, stocks[..|stocks| - 1]);
      if Listed(canon, bySymbol, s) then m[s.id := bySymbol[canon[StockNumber(s.symbol)]]] else m
  }

  function MappingOf(stocks: seq<Stock>, canon: map<string, string>): OrphanMap {
    Collect(canon, BySymbol(stocks), stocks)
  }

  lemma {:induction false} BySymbolOnly(stocks: seq<Stock>, symbol: string)
    requires symbol in BySymbol(stocks)
    ensures exists j :: 0 <= j < |stocks| && stocks[j].symbol == symbol
  {
    if stocks != [] {
      var n := |stocks| - 1;
      if symbol == stocks[n].symbol {
        assert stocks[n].symbol == symbol;
      } else {
        BySymbolOnly(stocks[..n], symbol);
        var j :| 0 <= j < n && stocks[..n][j].symbol == symbol;
        assert stocks[j].symbol == symbol;
      }
    }
  }

  lemma {:induction false} BySymbolAt(stocks: seq<Stock>, j: nat)
    requires StocksUnique(stocks) && j < |stocks|
    ensures stocks[j].symbol in BySymbol(stocks) && BySymbol(stocks)[stocks[j].symbol] == stocks[j].id
  {
    var n := |stocks| - 1;
    if j < n { BySymbolAt(stocks[..n], j); }
  }

  lemma BySymbolFinds(stocks: seq<Stock>)
    requires StocksUnique(stocks)
    ensures forall j :: 0 <= j < |stocks| ==>
              stocks[j].symbol in BySymbol(stocks) && BySymbol(stocks)[stocks[j].symbol] == stocks[j].id
    ensures forall s :: s in BySymbol(stocks) ==> exists j :: 0 <= j < |stocks| && stocks[j].symbol == s
  {
    forall j | 0 <= j < |stocks|
      ensures stocks[j].symbol in BySymbol(stocks) && BySymbol(stocks)[stocks[j].symbol] == stocks[j].id
    {
      BySymbolAt(stocks, j);
    }
    forall s | s in BySymbol(stocks) ensures exists j :: 0 <= j < |stocks| && stocks[j].symbol == s {
      BySymbolOnly(stocks, s);
    }
  }

  lemma {:induction false} CollectFinds(canon: map<string, string>, bySymbol: map<string, int>, stocks: seq<Stock>)
    requires StocksUnique(stocks)
    ensures forall i :: 0 <= i < |stocks| && Listed(canon, bySymbol, stocks[i]) ==>
              && stocks[i].id in Collect(canon, bySymbol, stocks)
              && Collect(canon, bySymbol, stocks)[stocks[i].id] == bySymbol[canon[StockNumber(stocks[i].symbol)]]
  {
    hide StockNumber;
    if stocks != [] { CollectFinds(canon, bySymbol, stocks[..|stocks| - 1]); }
  }

  ghost predicate ListedId(canon: map<string, string>, bySymbol: map<string, int>, stocks: seq<Stock>, o: int) {
    exists i :: 0 <= i < |stocks| && stocks[i].id == o && Listed(canon, bySymbol, stocks[i])
  }

  lemma {:induction false} CollectedAreListed(canon: map<string, string>, bySymbol: map<string, int>,
                                              stocks: seq<Stock>)
    ensures forall o :: o in Collect(canon, bySymbol, stocks) ==> ListedId(canon, bySymbol, stocks, o)
  {
    hide Listed;
    if stocks != [] {
      var n := |stocks| - 1;
      CollectedAreListed(canon, bySymbol, stocks[..n]);
      forall o | ListedId(canon, bySymbol, stocks[..n], o) ensures ListedId(canon, bySymbol, stocks, o) {
        var i :| 0 <= i < n && stocks[..n][i].id == o && Listed(canon, bySymbol, stocks[..n][i]);
        assert stocks[i] == stocks[..n][i];
      }
      forall o | o in Collect(canon, bySymbol, stocks) ensures ListedId(canon, bySymbol, stocks, o) {
        if o !in Collect(canon, bySymbol, stocks[..n]) { assert stocks[n].id == o; }
      }
    }
  }

  /** The dictionary lookups of the script find exactly the active orphans and their twins. */
  lemma MappingIsExact(stocks: seq<Stock>, canon: map<string, string>)
    requires StocksUnique(stocks)
    ensures IsMapping(stocks, canon, MappingOf(stocks, canon))
  {
    var index, m := BySymbol(stocks), MappingOf(stocks, canon);
    BySymbolFinds(stocks);
    CollectFinds(canon, index, stocks);
    CollectedAreListed(canon, index, stocks);
    forall i, j | 0 <= i < |stocks| && 0 <= j < |stocks| && IsTwin(canon, stocks[i], stocks[j])
      ensures stocks[i].id in m && m[stocks[i].id] == stocks[j].id
    {
      assert Listed(canon, index, stocks[i]);
    }
    forall o | o in m ensures Explained(stocks, canon, o, m[o]) {
      assert ListedId(canon, index, stocks, o);
      var i :| 0 <= i < |stocks| && stocks[i].id == o && Listed(canon, index, stocks[i]);
      var j :| 0 <= j < |stocks| && stocks[j].symbol == canon[StockNumber(stocks[i].symbol)];
      assert IsTwin(canon, stocks[i], stocks[j]);
    }
  }

  function SwitchedOff(stocks: seq<Stock>, m: OrphanMap): (s: seq<Stock>)
    ensures |s| == |stocks|
  {
    seq(|stocks|, i requires 0 <= i < |stocks| =>
      if stocks[i].id in m then stocks[i].(active := false) else stocks[i])
  }

  ghost predicate HasTwin(canon: map<string, string>, stocks: seq<Stock>, s: Stock) {
    exists j :: 0 <= j < |stocks| && IsTwin(canon, s, stocks[j])
  }

  /** Row for row, exactly the stocks that have a twin are switched off, and nothing else about any stock
      changes. */
  ghost predicate OrphansOff(canon: map<string, string>, before: seq<Stock>, after: seq<Stock>) {
    && |after| == |before|
    && forall i :: 0 <= i < |before| ==>
         && after[i].id == before[i].id && after[i].symbol == before[i].symbol
         && after[i].active == (before[i].active && !HasTwin(canon, before, before[i]))
  }

  lemma SwitchedOffOrphans(stocks: seq<Stock>, canon: map<string, string>)
    requires StocksUnique(stocks)
    ensures OrphansOff(canon, stocks, SwitchedOff(stocks, MappingOf(stocks, canon)))
  {
    hide IsTwin;
    var m := MappingOf(stocks, canon);
    MappingIsExact(stocks, canon);
    forall i | 0 <= i < |stocks| ensures stocks[i].id in m <==> HasTwin(canon, stocks, stocks[i]) {
      if stocks[i].id in m { assert Explained(stocks, canon, stocks[i].id, m[stocks[i].id]); }
    }
  }

  /** A stock's number is its symbol up to the first dot. */
  lemma {:induction false} NumberEndsAtDot(symbol: string)
    ensures var n := StockNumber(symbol);
            n <= symbol && '.' !in n && (n == symbol || symbol[|n|] == '.')
  {
    if symbol != "" && symbol[0] != '.' { NumberEndsAtDot(symbol[1..]); }
  }

  /** The places of the rows that move, and of the rows on an orphan. */
  ghost function Moving(t: Table, m: OrphanMap, n: nat): set<nat>
    requires n <= |t|
  {
    set i: nat | i < n && Moves(t, m, t[i])
  }

  ghost function OnOrphans(t: Table, m: OrphanMap): set<nat> {
    set i: nat | i < |t| && Orphaned(t[i], m)
  }

  /** The two numbers reported for a table count rows. */
  lemma {:induction false} MovesAreRows(t: Table, m: OrphanMap, n: nat)
    requires n <= |t|
    ensures CountMoves(t, m, n) == |Moving(t, m, n)|
  {
    hide Moves;
    if n > 0 {
      var k: nat := n - 1;
      MovesAreRows(t, m, k);
      assert Moving(t, m, n) == if Moves(t, m, t[k]) then Moving(t, m, k) + {k} else Moving(t, m, k);
      hide Moving;
    }
  }

  lemma {:induction false} OrphanedAreRows(t: Table, m: OrphanMap)
    ensures CountOrphaned(t, m) == |OnOrphans(t, m)|
  {
    hide Orphaned;
    if t != [] {
      var k: nat := |t| - 1;
      OrphanedAreRows(t[..k], m);
      assert OnOrphans(t, m) == if Orphaned(t[k], m) then OnOrphans(t[..k], m) + {k} else OnOrphans(t[..k], m);
    }
  }

  /** A second run finds nothing to do. */
  lemma SecondRunFindsNothing(stocks: seq<Stock>, canon: map<string, string>)
    requires StocksUnique(stocks)
    ensures var off := SwitchedOff(stocks, MappingOf(stocks, canon));
            StocksUnique(off) && MappingOf(off, canon) == map[]
  {
    var m := MappingOf(stocks, canon);
    var off := SwitchedOff(stocks, m);
    MappingIsExact(stocks, canon);
    MappingIsExact(off, canon);
    forall i, j | 0 <= i < |off| && 0 <= j < |off| ensures !IsTwin(canon, off[i], off[j]) {
      assert IsTwin(canon, stocks[i], stocks[j]) ==> stocks[i].id in m;
    }
    NothingExplained(off, canon, MappingOf(off, canon));
  }

  lemma NothingExplained(stocks: seq<Stock>, canon: map<string, string>, m: OrphanMap)
    requires IsMapping(stocks, canon, m)
    requires forall i, j :: 0 <= i < |stocks| && 0 <= j < |stocks| ==> !IsTwin(canon, stocks[i], stocks[j])
    ensures m == map[]
  {
    assert forall o, twin :: !Explained(stocks, canon, o, twin);
    hide IsTwin, Explained;
    assert forall o :: o !in m;
  }

  /** With a canonical map whose symbols keep their numbers, a run that meets no clash loses and invents
      no natural key in any table, keeps every table unique, and accounts for every orphan row. */
  lemma ReconcileLosesNothing(stocks: seq<Stock>, canon: map<string, string>, t: Table)
    requires StocksUnique(stocks) && Unique(t)
    requires forall sid :: sid in canon && canon[sid] != "" ==> StockNumber(canon[sid]) == sid
    requires !Clash(t, MappingOf(stocks, canon))
    ensures var m := MappingOf(stocks, canon);
            && Keys(Repointed(t, m)) == CanonicalKeys(t, m)
            && Unique(Repointed(t, m))
            && CountMoves(t, m, |t|) + CountOrphaned(Updated(t, m), m) == CountOrphaned(t, m)
  {
    var m := MappingOf(stocks, canon);
    MappingIsExact(stocks, canon);
    NumbersKeptMeansNoChain(stocks, canon, m, t);
    NoKeyLostIffNoChain(t, m);
    RepointKeepsUnique(t, m);
    MovedPlusDropped(t, m);
  }

  // ----- the script

  datatype Report = NothingToDo | Counts(perTable: seq<(nat, nat)>)

  datatype Violation = UniqueViolation

  class Database {
    var stocks: seq<Stock>
    var tables: seq<Table>

    constructor (stocks: seq<Stock>, tables: seq<Table>)
      ensures this.stocks == stocks && this.tables == tables
    {
      this.stocks, this.tables := stocks, tables;
    }

    ghost predicate Valid()
      reads this
    {
      StocksUnique(stocks) && forall k :: 0 <= k < |tables| ==> Unique(tables[k])
    }

    method BuildMapping(canon: map<string, string>) returns (m: OrphanMap)
      ensures m == MappingOf(stocks, canon)
    {
      var bySymbol := map[];
      for i := 0 to |stocks|
        invariant bySymbol == BySymbol(stocks[..i])
      {
        assert stocks[..i + 1][..i] == stocks[..i];
        bySymbol := bySymbol[stocks[i].symbol := stocks[i].id];
      }
      assert stocks[..|stocks|] == stocks;
      m := map[];
      for i := 0 to |stocks|
        invariant m == Collect(canon, bySymbol, stocks[..i])
      {
        assert stocks[..i + 1][..i] == stocks[..i];
        var sid := StockNumber(stocks[i].symbol);
        if sid in canon && canon[sid] != "" && stocks[i].symbol != canon[sid]
           && canon[sid] in bySymbol && stocks[i].active {
          m := m[stocks[i].id := bySymbol[canon[sid]]];
        }
      }
    }

    /** The whole transaction: all tables are repointed and the orphans switched off, or, on a dry run or
        a constraint violation, nothing changes.  It fails exactly when some table has a clash. */
    method Reconcile(canon: map<string, string>, apply: bool) returns (r: Result<Report, Violation>)
      requires Valid()
      modifies this
      ensures Valid()
      ensures var m := MappingOf(old(stocks), canon); var before := old(tables);
              && (r.Err? <==> m != map[] && exists k :: 0 <= k < |before| && Clash(before[k], m))
              && (r == Ok(NothingToDo) <==> m == map[])
              && (r.Ok? && r.value.Counts? ==>
                    && |r.value.perTable| == |before|
                    && forall k :: 0 <= k < |before| ==>
                         r.value.perTable[k] == (CountMoves(before[k], m, |before[k]|),
                                                 CountOrphaned(Updated(before[k], m), m)))
              && (if r.Ok? && r.value.Counts? && apply then
                    && OrphansOff(canon, old(stocks), stocks)
                    && |tables| == |before|
                    && forall k :: 0 <= k < |before| ==> tables[k] == Repointed(before[k], m)
                  else stocks == old(stocks) && tables == before)
    {
      var m := BuildMapping(canon);
      if m == map[] { return Ok(NothingToDo); }
      var work: seq<Table>, counts: seq<(nat, nat)> := [], [];
      for k := 0 to |tables|
        invariant |work| == |counts| == k
        invariant stocks == old(stocks) && tables == old(tables)
        invariant forall i :: 0 <= i < k ==>
                    !Clash(tables[i], m) && Unique(work[i]) && work[i] == Repointed(tables[i], m)
        invariant forall i :: 0 <= i < k ==>
                    counts[i] == (CountMoves(tables[i], m, |tables[i]|), CountOrphaned(Updated(tables[i], m), m))
      {
        var t := tables[k];
        var u := Updated(t, m);
        UpdateViolatesIffClash(t, m);
        if !Unique(u) { return Err(UniqueViolation); }
        RepointKeepsUnique(t, m);
        work := work + [WithoutOrphans(u, m)];
        counts := counts + [(CountMoves(t, m, |t|), CountOrphaned(u, m))];
      }
      r := Ok(Counts(counts));
      if apply {
        SecondRunFindsNothing(stocks, canon);
        SwitchedOffOrphans(stocks, canon);
        stocks, tables := SwitchedOff(stocks, m), work;
      }
    }
  }
}
