/** Setting an account's allocation rules: one upsert per requested rule.

    The table carries the unique index on (account, symbol) over rows that have an account, and the check that
    a row has exactly one owner.  The session flushes before each query, so a later request for the same
    symbol finds the row an earlier one inserted. */
module Allocation {
  import opened Options

  datatype Terms = Terms(target: real, lower: real, upper: real, active: bool)

  datatype Rule = Rule(id: nat, account: Option<int>, group: Option<int>, symbol: string, terms: Terms)

  datatype Request = Request(symbol: string, terms: Terms)

  predicate Matches(r: Rule, account: int, symbol: string) {
    r.account == Some(account) && r.symbol == symbol
  }

  /** The one-owner check, the unique index, and ids handed out in order. */
  ghost predicate Sound(rules: seq<Rule>, nextId: nat) {
    && (forall i :: 0 <= i < |rules| ==> rules[i].id < nextId && (rules[i].account.Some? <==> rules[i].group.None?))
    && (forall i, j :: 0 <= i < j < |rules| ==> rules[i].id != rules[j].id)
    && (forall i, j :: 0 <= i < j < |rules| && rules[i].account.Some? ==>
          !Matches(rules[j], rules[i].account.value, rules[i].symbol))
  }

  /** The row of (account, symbol). */
  function Row(rules: seq<Rule>, account: int, symbol: string): (r: Option<Rule>)
    ensures r.Some? ==> r.value in rules && Matches(r.value, account, symbol)
    ensures r.None? ==> forall x :: x in rules ==> !Matches(x, account, symbol)
  {
    if rules == [] then None
    else
      var last := rules[|rules| - 1];
      var rest := Row(rules[..|rules| - 1], account, symbol);
      assert forall x :: x in rules <==> x in rules[..|rules| - 1] || x == last;
      if Matches(last, account, symbol) then Some(last) else rest
  }

  /** The rows of other owners, in order. */
  function OthersOf(rules: seq<Rule>, account: int): seq<Rule> {
    if rules == [] then []
    else
      var last, before := rules[|rules| - 1], OthersOf(rules[..|rules| - 1], account);
      if last.account == Some(account) then before else before + [last]
  }

  /** `select(AllocationRule).where(account_id == account)` */
  function RulesOf(rules: seq<Rule>, account: int): seq<Rule> {
    if rules == [] then []
    else
      var last, before := rules[|rules| - 1], RulesOf(rules[..|rules| - 1], account);
      if last.account == Some(account) then before + [last] else before
  }

  /** The terms of the last request for `symbol`. */
  function LastTerms(requests: seq<Request>, symbol: string): Option<Terms> {
    if requests == [] then None
    else
      var last := requests[|requests| - 1];
      if last.symbol == symbol then Some(last.terms) else LastTerms(requests[..|requests| - 1], symbol)
  }

  /** What the table must hold for (account, symbol) after `requests`: the last request's terms on the old row
      if there was one, else on a new row of the account; without a request, the old row as it was. */
  ghost predicate Settled(before: seq<Rule>, after: seq<Rule>, firstNew: nat, account: int, requests: seq<Request>,
                          symbol: string) {
    var was, now := Row(before, account, symbol), Row(after, account, symbol);
    match LastTerms(requests, symbol)
    case None => now == was
    case Some(terms) =>
      && now.Some? && now.value.terms == terms
      && (was.Some? ==> now.value == was.value.(terms := terms))
      && (was.None? ==> now.value.group == None && firstNew <= now.value.id)
  }

  ghost predicate AllSettled(before: seq<Rule>, after: seq<Rule>, firstNew: nat, account: int, requests: seq<Request>) {
    forall symbol: string :: Settled(before, after, firstNew, account, requests, symbol)
  }

  // ----- one upsert

  lemma {:induction false} RowIs(rules: seq<Rule>, nextId: nat, i: nat, account: int, symbol: string)
    requires Sound(rules, nextId) && i < |rules| && Matches(rules[i], account, symbol)
    ensures Row(rules, account, symbol) == Some(rules[i])
  {
    var r := Row(rules, account, symbol);
    var j :| 0 <= j < |rules| && rules[j] == r.value;
    assert i == j;
  }

  lemma {:induction false} OthersUpdate(rules: seq<Rule>, i: nat, r: Rule, account: int)
    requires i < |rules| && rules[i].account == r.account == Some(account)
    ensures OthersOf(rules[i := r], account) == OthersOf(rules, account)
  {
    var n := |rules| - 1;
    if i < n {
      OthersUpdate(rules[..n], i, r, account);
      assert rules[i := r][..n] == rules[..n][i := r];
    } else {
      assert rules[i := r][..n] == rules[..n];
    }
  }

  lemma RowUpdate(rules: seq<Rule>, nextId: nat, i: nat, terms: Terms, account: int, symbol: string)
    requires Sound(rules, nextId) && i < |rules| && rules[i].account == Some(account)
    ensures var r := rules[i].(terms := terms);
            && Sound(rules[i := r], nextId)
            && Row(rules[i := r], account, symbol)
               == if symbol == r.symbol then Some(r) else Row(rules, account, symbol)
  {
    var r := rules[i].(terms := terms);
    var after := rules[i := r];
    assert Sound(after, nextId) by {
      assert forall k :: 0 <= k < |rules| ==> after[k].id == rules[k].id && after[k].account == rules[k].account
                                              && after[k].group == rules[k].group && after[k].symbol == rules[k].symbol;
    }
    var was := Row(rules, account, symbol);
    if symbol == r.symbol {
      RowIs(after, nextId, i, account, symbol);
    } else if was.Some? {
      var j :| 0 <= j < |rules| && rules[j] == was.value;
      assert j != i;
      RowIs(after, nextId, j, account, symbol);
    } else {
      forall k | 0 <= k < |after| ensures !Matches(after[k], account, symbol) { assert rules[k] in rules; }
    }
  }

  lemma SoundAppend(rules: seq<Rule>, nextId: nat, r: Rule, account: int)
    requires Sound(rules, nextId) && r.account == Some(account) && r.group == None && r.id == nextId
    requires forall x :: x in rules ==> !Matches(x, account, r.symbol)
    ensures Sound(rules + [r], nextId + 1)
  {
    hide Row, OthersOf;
    var after := rules + [r];
    forall i, j | 0 <= i < j < |after| && after[i].account.Some?
      ensures !Matches(after[j], after[i].account.value, after[i].symbol)
    {
      assert after[i] == rules[i] && rules[i] in rules;
      if j < |rules| {
        assert after[j] == rules[j];
      } else {
        assert after[j] == r && !Matches(rules[i], account, r.symbol);
      }
    }
  }

  lemma RowAppend(rules: seq<Rule>, r: Rule, account: int, symbol: string)
    requires r.account == Some(account)
    ensures Row(rules + [r], account, symbol) == if symbol == r.symbol then Some(r) else Row(rules, account, symbol)
    ensures OthersOf(rules + [r], account) == OthersOf(rules, account)
  {
    var after := rules + [r];
    assert after[..|rules|] == rules;
  }

  /** One more request settles its symbol and leaves every other symbol settled. */
  lemma StepSettles(before: seq<Rule>, mid: seq<Rule>, after: seq<Rule>, firstNew: nat, account: int,
                    requests: seq<Request>, q: Request)
    requires AllSettled(before, mid, firstNew, account, requests)
    requires forall s: string :: s != q.symbol ==> Row(after, account, s) == Row(mid, account, s)
    requires var was, now := Row(mid, account, q.symbol), Row(after, account, q.symbol);
             now.Some? && now.value.terms == q.terms
             && (was.Some? ==> now.value == was.value.(terms := q.terms))
             && (was.None? ==> now.value.group == None && firstNew <= now.value.id)
    ensures AllSettled(before, after, firstNew, account, requests + [q])
  {
    assert (requests + [q])[..|requests|] == requests;
    forall s: string ensures Settled(before, after, firstNew, account, requests + [q], s) {
      assert Settled(before, mid, firstNew, account, requests, s);
    }
  }

  class RuleTable {
    const accounts: set<int>   // ids in trade_accounts
    var rules: seq<Rule>
    var nextId: nat

    constructor (accounts: set<int>, rules: seq<Rule>, nextId: nat)
      requires Sound(rules, nextId)
      ensures this.accounts == accounts && this.rules == rules && this.nextId == nextId
    {
      this.accounts, this.rules, this.nextId := accounts, rules, nextId;
    }

    /** The body of the loop: update the row of (account, symbol), or insert one. */
    method Upsert(account: int, q: Request)
      requires Sound(rules, nextId)
      modifies this`rules, this`nextId
      ensures Sound(rules, nextId) && old(nextId) <= nextId
      ensures forall s: string :: s != q.symbol ==> Row(rules, account, s) == Row(old(rules), account, s)
      ensures OthersOf(rules, account) == OthersOf(old(rules), account)
      ensures Row(rules, account, q.symbol)
              == match Row(old(rules), account, q.symbol)
                 case Some(was) => Some(was.(terms := q.terms))
                 case None => Some(Rule(old(nextId), Some(account), None, q.symbol, q.terms))
    {
      var i := 0;
      while i < |rules| && !Matches(rules[i], account, q.symbol)
        invariant i <= |rules|
        invariant forall k :: 0 <= k < i ==> !Matches(rules[k], account, q.symbol)
      {
        i := i + 1;
      }
      ghost var before := rules;
      if i < |rules| {
        RowIs(rules, nextId, i, account, q.symbol);
        forall s: string { RowUpdate(rules, nextId, i, q.terms, account, s); }
        OthersUpdate(rules, i, rules[i].(terms := q.terms), account);
        rules := rules[i := rules[i].(terms := q.terms)];
      } else {
        var r := Rule(nextId, Some(account), None, q.symbol, q.terms);
        SoundAppend(rules, nextId, r, account);
        forall s: string { RowAppend(rules, r, account, s); }
        rules, nextId := rules + [r], nextId + 1;
      }
    }

    /** `set_account_allocation`: 404 without a change for an unknown account; otherwise every symbol ends with
        the last request's terms, rows of other owners and the account's other rows are untouched, and the
        answer lists the account's rows. */
    method SetAccountAllocation(account: int, requests: seq<Request>) returns (answer: Option<seq<Rule>>)
      requires Sound(rules, nextId)
      modifies this`rules, this`nextId
      ensures Sound(rules, nextId)
      ensures account !in accounts ==> answer == None && rules == old(rules) && nextId == old(nextId)
      ensures account in accounts ==>
                && answer == Some(RulesOf(rules, account))
                && AllSettled(old(rules), rules, old(nextId), account, requests)
                && OthersOf(rules, account) == OthersOf(old(rules), account)
    {
      if account !in accounts {
        return None;
      }
      assert AllSettled(rules, rules, nextId, account, []);
      for i := 0 to |requests|
        invariant Sound(rules, nextId) && old(nextId) <= nextId
        invariant AllSettled(old(rules), rules, old(nextId), account, requests[..i])
        invariant OthersOf(rules, account) == OthersOf(old(rules), account)
      {
        ghost var mid := rules;
        Upsert(account, requests[i]);
        StepSettles(old(rules), mid, rules, old(nextId), account, requests[..i], requests[i]);
        assert requests[..i + 1] == requests[..i] + [requests[i]];
      }
      assert requests[..|requests|] == requests;
      answer := Some(RulesOf(rules, account));
    }
  }

  // ----- consequences

  /** A row is in the answer exactly when it is in the table and belongs to the account. */
  lemma {:induction false} RulesOfIff(rules: seq<Rule>, account: int, r: Rule)
    ensures r in RulesOf(rules, account) <==> r in rules && r.account == Some(account)
  {
    if rules != [] {
      var n := |rules| - 1;
      RulesOfIff(rules[..n], account, r);
      assert rules == rules[..n] + [rules[n]];
    }
  }

  /** Sending the same requests again leaves every row of the account as the first time left it. */
  lemma SettledTwice(before: seq<Rule>, after: seq<Rule>, again: seq<Rule>, n1: nat, n2: nat, account: int,
                     requests: seq<Request>)
    requires AllSettled(before, after, n1, account, requests) && AllSettled(after, again, n2, account, requests)
    ensures forall symbol: string :: Row(again, account, symbol) == Row(after, account, symbol)
  {
    forall symbol: string ensures Row(again, account, symbol) == Row(after, account, symbol) {
      assert Settled(before, after, n1, account, requests, symbol);
      assert Settled(after, again, n2, account, requests, symbol);
    }
  }
}
