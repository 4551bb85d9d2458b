/** The one-shot migration of the browser's watchlist to the server.

    JSON parsing is not modelled: the stored key holds nothing, something unusable, or entries.  Nobody
    else changes the server's list meanwhile.  The server side follows the add endpoint: unknown symbol,
    then the tier cap, then the duplicate check.  Each call may also be refused for another reason, or
    succeed on the server with the reply lost. */
module Watchlist {
  import Csv
  import opened Names
  import opened Options

  datatype Entry = Malformed | Item(symbol: string)

  /** localStorage under the legacy key. */
  datatype Stored = Absent | Unusable | Entries(items: seq<Entry>)

  datatype Error = Api(status: int, message: string) | Other

  datatype Reply = Created | Failed(error: Error)

  datatype Fault = Healthy | Refuse(error: Error) | LoseReply(error: Error)

  datatype Reason = TierCap | UnknownSymbol | InvalidSymbol | Unauthenticated | ApiStatus(status: int) | Network

  datatype Failure = Failure(symbol: string, reason: Reason)

  datatype Outcome = Outcome(migrated: nat, skipped: nat, failed: seq<Failure>)

  /** `x.includes(y)` */
  predicate Includes(x: string, y: string) {
    exists i :: 0 <= i <= |x| && y <= x[i..]
  }

  lemma IncludesMeans(x: string, y: string)
    ensures Includes(x, y) <==> exists a, b :: x == a + y + b
  {
    if i :| 0 <= i <= |x| && y <= x[i..] {
      assert x == x[..i] + y + x[i..][|y|..];
    }
    if a, b :| x == a + y + b {
      assert x[|a|..] == y + b;
    }
  }

  const CAP_MESSAGE := "watchlist_limit_exceeded"

  datatype Class = Skip | Stop | Terminal(reason: Reason)

  function Classify(e: Error): Class {
    match e
    case Other => Terminal(Network)
    case Api(status, message) =>
      if status == 409 then Skip
      else if status == 403 && Includes(message, CAP_MESSAGE) then Stop
      else if status == 404 then Terminal(UnknownSymbol)
      else if status == 422 then Terminal(InvalidSymbol)
      else if status == 401 then Terminal(Unauthenticated)
      else Terminal(ApiStatus(status))
  }

  /** The reason given to every entry when the initial listing fails. */
  function ListingReason(e: Error): Reason {
    match e case Api(status, _) => ApiStatus(status) case Other => Network
  }

  predicate Usable(e: Entry) {
    e.Item? && Csv.Trim(e.symbol) != ""
  }

  function UsableSymbols(items: seq<Entry>): seq<string> {
    if items == [] then []
    else
      var last, before := items[|items| - 1], UsableSymbols(items[..|items| - 1]);
      if Usable(last) then before + [last.symbol] else before
  }

  /** `readLegacy`: malformed rows are dropped, anything unusable is an empty list. */
  function Legacy(s: Stored): seq<string> {
    match s case Entries(items) => UsableSymbols(items) case _ => []
  }

  /** Reading works entry by entry, in order: a malformed entry and one with a blank symbol are dropped, every other
      symbol is kept as it is. */
  lemma {:induction false} UsableSymbolsMean(items: seq<Entry>, more: seq<Entry>)
    ensures UsableSymbols(items + more) == UsableSymbols(items) + UsableSymbols(more)
    ensures |items| == 1 ==>
              UsableSymbols(items) == if items[0].Malformed? || Csv.AllSpace(items[0].symbol) then []
                                      else [items[0].symbol]
  {
    hide Usable;
    if more != [] {
      var n := |more| - 1;
      UsableSymbolsMean(items, more[..n]);
      assert (items + more)[..|items| + n] == items + more[..n];
    } else {
      assert items + more == items;
    }
    if |items| == 1 {
      UsableIff(items[0]);
      assert items[..0] == [];
    }
  }

  lemma UsableIff(e: Entry)
    ensures Usable(e) <==> e.Item? && !Csv.AllSpace(e.symbol)
  {
    if e.Item? { Csv.TrimsToNothingIff(e.symbol); }
  }

  // ----- the server

  /** One call to the add endpoint: what the client was told, and whether a row was inserted. */
  datatype Call = Call(symbol: string, reply: Reply, added: bool)

  class Server {
    const known: set<string>   // symbols of the stocks table
    const cap: Option<nat>     // the Free tier's cap, when it applies
    var list: seq<string>
    var log: seq<Call>

    constructor (known: set<string>, cap: Option<nat>, list: seq<string>)
      ensures this.known == known && this.cap == cap && this.list == list && log == []
    {
      this.known, this.cap, this.list, this.log := known, cap, list, [];
    }

    /** `add_to_watchlist`, seen through the network. */
    method Add(symbol: string, fault: Fault) returns (reply: Reply)
      modifies this
      ensures log == old(log) + [Call(symbol, reply, list != old(list))]
      ensures var answer := Answer(known, cap, old(list), symbol);
              && list == (if !fault.Refuse? && answer == Created then old(list) + [symbol] else old(list))
              && reply == (if fault.Healthy? then answer else Failed(fault.error))
    {
      if fault.Refuse? {
        reply := Failed(fault.error);
        log := log + [Call(symbol, reply, false)];
        return;
      }
      var answer := Created;
      if symbol !in known {
        answer := Failed(Api(404, "stock_not_found"));
      } else if cap.Some? && |list| >= cap.value {
        answer := Failed(Api(403, "watchlist_limit_exceeded"));
      } else if symbol in list {
        answer := Failed(Api(409, "watchlist_already_exists"));
      }
      reply := if fault.LoseReply? then Failed(fault.error) else answer;
      log := log + [Call(symbol, reply, answer == Created)];
      if answer == Created {
        assert |list + [symbol]| == |list| + 1;
        list := list + [symbol];
      }
    }
  }

  /** The endpoint's checks, in its order. */
  function Answer(known: set<string>, cap: Option<nat>, list: seq<string>, symbol: string): Reply {
    if symbol !in known then Failed(Api(404, "stock_not_found"))
    else if cap.Some? && |list| >= cap.value then Failed(Api(403, CAP_MESSAGE))
    else if symbol in list then Failed(Api(409, "watchlist_already_exists"))
    else Created
  }

  /** The fault does not tell the client that a symbol is already there. */
  predicate Honest(f: Fault) {
    f.Healthy? || Classify(f.error) != Skip
  }

  predicate Reported(failed: seq<Failure>, symbol: string) {
    exists i :: 0 <= i < |failed| && failed[i].symbol == symbol
  }

  lemma ReportedAppend(failed: seq<Failure>, f: Failure, symbol: string)
    ensures Reported(failed + [f], symbol) <==> Reported(failed, symbol) || f.symbol == symbol
  {
    var more := failed + [f];
    assert more[|failed|] == f;
    if Reported(failed, symbol) {
      var i :| 0 <= i < |failed| && failed[i].symbol == symbol;
      assert more[i].symbol == symbol;
    }
  }

  lemma AnswerIsNew(known: set<string>, cap: Option<nat>, list: seq<string>, symbol: string)
    ensures Answer(known, cap, list, symbol) == Created ==> symbol !in list && list + [symbol] != list
  {
    assert |list + [symbol]| > |list|;
  }

  /** If every fault is honest, each of the first `n` symbols is listed by the server or reported as failed. */
  ghost predicate Accounted(honest: bool, list: seq<string>, failed: seq<Failure>, symbols: seq<string>, n: nat) {
    n <= |symbols| && (honest ==> forall k :: 0 <= k < n ==> symbols[k] in list || Reported(failed, symbols[k]))
  }

  lemma AccountedListed(honest: bool, list: seq<string>, more: seq<string>, failed: seq<Failure>, symbols: seq<string>,
                        n: nat)
    requires Accounted(honest, list, failed, symbols, n) && n < |symbols| && list <= more
    requires honest ==> symbols[n] in more
    ensures Accounted(honest, more, failed, symbols, n + 1)
  {
  }

  lemma AccountedReported(honest: bool, list: seq<string>, more: seq<string>, failed: seq<Failure>,
                          symbols: seq<string>, n: nat, reason: Reason)
    requires Accounted(honest, list, failed, symbols, n) && n < |symbols| && list <= more
    ensures Accounted(honest, more, failed + [Failure(symbols[n], reason)], symbols, n + 1)
  {
    forall k | 0 <= k < n + 1 { ReportedAppend(failed, Failure(symbols[n], reason), symbols[k]); }
  }

  // ----- reading the call log

  /** The symbols the calls inserted, in order. */
  function Inserted(calls: seq<Call>): seq<string> {
    if calls == [] then []
    else
      var last, before := calls[|calls| - 1], Inserted(calls[..|calls| - 1]);
      if last.added then before + [last.symbol] else before
  }

  function CountCreated(calls: seq<Call>): nat {
    if calls == [] then 0 else CountCreated(calls[..|calls| - 1]) + if calls[|calls| - 1].reply == Created then 1 else 0
  }

  predicate Stops(c: Call) {
    c.reply.Failed? && Classify(c.reply.error) == Stop
  }

  lemma AppendCall(calls: seq<Call>, c: Call)
    ensures Inserted(calls + [c]) == if c.added then Inserted(calls) + [c.symbol] else Inserted(calls)
    ensures CountCreated(calls + [c]) == CountCreated(calls) + if c.reply == Created then 1 else 0
  {
    assert (calls + [c])[..|calls|] == calls;
  }

  /** How many calls inserted a row without being answered "created". */
  function CountUnanswered(calls: seq<Call>): nat {
    if calls == [] then 0
    else
      var last := calls[|calls| - 1];
      CountUnanswered(calls[..|calls| - 1]) + if last.added && last.reply != Created then 1 else 0
  }

  /** If "created" is only answered for an inserted row, the rows inserted are those answered "created" and those
      whose reply was lost; and none of these, if every inserted row was answered. */
  lemma {:induction false} InsertedIsAnsweredOrLost(calls: seq<Call>)
    requires forall i :: 0 <= i < |calls| && calls[i].reply == Created ==> calls[i].added
    ensures |Inserted(calls)| == CountCreated(calls) + CountUnanswered(calls)
    ensures CountUnanswered(calls) == 0
            <==> forall i :: 0 <= i < |calls| && calls[i].added ==> calls[i].reply == Created
  {
    if calls != [] { InsertedIsAnsweredOrLost(calls[..|calls| - 1]); }
  }

  /** What a duplicate-free list was extended with is new and duplicate-free. */
  lemma ExtensionIsNewAndDistinct(list: seq<string>, more: seq<string>)
    requires Distinct(list + more)
    ensures Distinct(more) && forall s :: s in more ==> s !in list
  {
    var all := list + more;
    assert forall i :: 0 <= i < |more| ==> more[i] == all[|list| + i];
    assert forall i :: 0 <= i < |list| ==> list[i] == all[i];
  }

  /** What the calls made so far did: the list grew by what they inserted, none but perhaps the last was a
      tier-cap reply, and each "created" reply inserted a row. */
  ghost predicate CallsSoFar(start: seq<string>, calls: seq<Call>, list: seq<string>, migrated: nat, hitTierCap: bool,
                             reliable: bool) {
    && list == start + Inserted(calls) && Distinct(list) && migrated == CountCreated(calls)
    && (forall k :: 0 <= k < |calls| && Stops(calls[k]) ==> hitTierCap && k == |calls| - 1)
    && (forall k :: 0 <= k < |calls| ==>
          && (calls[k].reply == Created ==> calls[k].added)
          && (reliable && calls[k].added ==> calls[k].reply == Created))
  }

  lemma OneMoreCall(start: seq<string>, calls: seq<Call>, list: seq<string>, migrated: nat, reliable: bool, c: Call)
    requires CallsSoFar(start, calls, list, migrated, false, reliable)
    requires (c.reply == Created ==> c.added) && (reliable && c.added ==> c.reply == Created)
    requires c.added ==> c.symbol !in list
    ensures CallsSoFar(start, calls + [c], if c.added then list + [c.symbol] else list,
                       migrated + if c.reply == Created then 1 else 0, Stops(c), reliable)
  {
    hide Stops, Inserted, CountCreated;
    AppendCall(calls, c);
    if c.added {
      assert start + (Inserted(calls) + [c.symbol]) == list + [c.symbol];
    }
  }

  // ----- the outcome as a function of the call log

  function NotListed(legacy: seq<string>, existing: seq<string>): (r: seq<string>)
    ensures |r| <= |legacy|
    ensures forall s :: s in r <==> s in legacy && s !in existing
  {
    if legacy == [] then []
    else
      var last, before := legacy[|legacy| - 1], NotListed(legacy[..|legacy| - 1], existing);
      assert forall s :: s in legacy <==> s in legacy[..|legacy| - 1] || s == last;
      if last in existing then before else before + [last]
  }

  function CountSkips(calls: seq<Call>): nat {
    if calls == [] then 0 else CountSkips(calls[..|calls| - 1]) + if Skips(calls[|calls| - 1]) then 1 else 0
  }

  predicate Skips(c: Call) {
    c.reply.Failed? && Classify(c.reply.error) == Skip
  }

  /** One entry per attempted symbol that was neither created nor skipped, then one per symbol not attempted. */
  function Failures(symbols: seq<string>, calls: seq<Call>): seq<Failure> {
    if symbols == [] then []
    else
      var n := |symbols| - 1;
      var before := Failures(symbols[..n], calls);
      if n >= |calls| then before + [Failure(symbols[n], TierCap)] else before + FailureOf(symbols[n], calls[n].reply)
  }

  function FailureOf(symbol: string, reply: Reply): seq<Failure> {
    if reply == Created then []
    else
      match Classify(reply.error)
      case Skip => []
      case Stop => [Failure(symbol, TierCap)]
      case Terminal(reason) => [Failure(symbol, reason)]
  }

  lemma ReadingOf(c: Call)
    ensures Stops(c) <==> c.reply.Failed? && Classify(c.reply.error) == Stop
    ensures Skips(c) <==> c.reply.Failed? && Classify(c.reply.error) == Skip
  {
  }

  lemma {:induction false} FailuresAppend(symbols: seq<string>, calls: seq<Call>, c: Call)
    requires |symbols| <= |calls|
    ensures Failures(symbols, calls + [c]) == Failures(symbols, calls)
  {
    if symbols != [] { FailuresAppend(symbols[..|symbols| - 1], calls, c); }
  }

  /** The counters after the first `i` symbols are what the calls made say: symbols are tried in order until
      the tier cap is hit. */
  ghost predicate Tallied(symbols: seq<string>, i: nat, calls: seq<Call>, hitTierCap: bool, skipped: nat,
                          failed: seq<Failure>) {
    && |calls| <= i <= |symbols| && (|calls| == i || hitTierCap)
    && (hitTierCap ==> calls != [] && Stops(calls[|calls| - 1]))
    && (forall k :: 0 <= k < |calls| ==> calls[k].symbol == symbols[k])
    && skipped == CountSkips(calls) && failed == Failures(symbols[..i], calls)
  }

  lemma TalliedCall(symbols: seq<string>, i: nat, calls: seq<Call>, skipped: nat, failed: seq<Failure>, c: Call)
    requires i < |symbols| && Tallied(symbols, i, calls, false, skipped, failed) && c.symbol == symbols[i]
    ensures Tallied(symbols, i + 1, calls + [c], Stops(c), skipped + if Skips(c) then 1 else 0,
                    failed + FailureOf(c.symbol, c.reply))
  {
    hide FailureOf, Classify;
    assert (calls + [c])[..i] == calls && symbols[..i + 1][..i] == symbols[..i];
    FailuresAppend(symbols[..i], calls, c);
  }

  lemma TalliedCapped(symbols: seq<string>, i: nat, calls: seq<Call>, skipped: nat, failed: seq<Failure>)
    requires i < |symbols| && Tallied(symbols, i, calls, true, skipped, failed)
    ensures Tallied(symbols, i + 1, calls, true, skipped, failed + [Failure(symbols[i], TierCap)])
  {
    assert symbols[..i + 1][..i] == symbols[..i];
  }

  // ----- the migration

  class Browser {
    var stored: Stored
    const removable: bool  // removeItem works

    constructor (stored: Stored, removable: bool)
      ensures this.stored == stored && this.removable == removable
    {
      this.stored, this.removable := stored, removable;
    }

    method ClearLegacy()
      modifies this
      ensures stored == if removable then Absent else old(stored)
    {
      if removable { stored := Absent; }
    }

    /** `migrateLocalWatchlistToApi`.  Every usable entry is counted once on every path; no call follows a
        tier-cap reply; the server's list grows by exactly the inserted, pairwise distinct, new symbols;
        the key is kept only when the listing failed (or removal did). */
    method Migrate(server: Server, listing: Option<Error>, faults: seq<Fault>) returns (o: Outcome)
      requires |faults| == |Legacy(stored)| && Distinct(server.list)
      modifies this, server
      ensures o.migrated + o.skipped + |o.failed| == |Legacy(old(stored))|
      ensures old(server.log) <= server.log && Distinct(server.list)
      ensures var calls := server.log[|old(server.log)|..];
              && server.list == old(server.list) + Inserted(calls)
              && Distinct(Inserted(calls)) && (forall s :: s in Inserted(calls) ==> s !in old(server.list))
              && o.migrated == CountCreated(calls) && |Inserted(calls)| == o.migrated + CountUnanswered(calls)
              && (Reliable(faults) ==> CountUnanswered(calls) == 0)
              && (forall i :: 0 <= i < |calls| - 1 ==> !Stops(calls[i]))
              && (forall i :: 0 <= i < |calls| ==> calls[i].reply == Created ==> calls[i].added)
      ensures listing.None? ==>
                var calls, work := server.log[|old(server.log)|..], NotListed(Legacy(old(stored)), old(server.list));
                && |calls| <= |work| && (forall i :: 0 <= i < |calls| ==> calls[i].symbol == work[i])
                && (|calls| < |work| ==> calls != [] && Stops(calls[|calls| - 1]))
                && o.skipped == |Legacy(old(stored))| - |work| + CountSkips(calls)
                && o.failed == Failures(work, calls)
      ensures AllHonest(faults) ==>
                forall s :: s in Legacy(old(stored)) ==> s in server.list || Reported(o.failed, s)
      ensures Legacy(old(stored)) != [] && listing.Some? ==>
                && stored == old(stored) && server.list == old(server.list) && server.log == old(server.log)
                && |o.failed| == |Legacy(old(stored))|
                && forall i :: 0 <= i < |o.failed| ==>
                     o.failed[i] == Failure(Legacy(old(stored))[i], ListingReason(listing.value))
      ensures Legacy(old(stored)) == [] || listing.None? ==> stored == if removable then Absent else old(stored)
    {
      var legacy := Legacy(stored);
      ghost var log0 := server.log;
      assert server.log[|log0|..] == [];
      if legacy == [] {
        ClearLegacy();
        return Outcome(0, 0, []);
      }
      if listing.Some? {
        var reason := if listing.value.Api? then ApiStatus(listing.value.status) else Network;
        var all := seq(|legacy|, i requires 0 <= i < |legacy| => Failure(legacy[i], reason));
        assert forall i :: 0 <= i < |legacy| ==> all[i].symbol == legacy[i];
        return Outcome(0, 0, all);
      }
      var skipped, toMigrate := PreSkip(legacy, server.list);
      var migrated: nat, more: nat, failed: seq<Failure>, hitTierCap: bool;
      ghost var calls: seq<Call>;
      migrated, more, failed, hitTierCap, calls := AddAll(server, toMigrate, faults);
      assert server.log[|log0|..] == calls;
      InsertedIsAnsweredOrLost(calls);
      assert toMigrate[..|toMigrate|] == toMigrate;
      ExtensionIsNewAndDistinct(old(server.list), Inserted(server.log[|log0|..]));
      ClearLegacy();
      o := Outcome(migrated, skipped + more, failed);
    }
  }

  /** Entries the server already lists count as skipped; the others keep their order. */
  method PreSkip(legacy: seq<string>, existing: seq<string>) returns (skipped: nat, toMigrate: seq<string>)
    ensures skipped + |toMigrate| == |legacy|
    ensures toMigrate == NotListed(legacy, existing)
  {
    skipped, toMigrate := 0, [];
    for i := 0 to |legacy|
      invariant skipped + |toMigrate| == i
      invariant toMigrate == NotListed(legacy[..i], existing)
    {
      assert legacy[..i + 1][..i] == legacy[..i];
      if legacy[i] in existing { skipped := skipped + 1; } else { toMigrate := toMigrate + [legacy[i]]; }
    }
    assert legacy[..|legacy|] == legacy;
  }

  /** No reply is lost. */
  predicate Reliable(faults: seq<Fault>) {
    forall i :: 0 <= i < |faults| ==> !faults[i].LoseReply?
  }

  predicate AllHonest(faults: seq<Fault>) {
    forall i :: 0 <= i < |faults| ==> Honest(faults[i])
  }

  lemma FaultAt(faults: seq<Fault>, i: nat)
    requires i < |faults|
    ensures Reliable(faults) ==> !faults[i].LoseReply?
    ensures AllHonest(faults) ==> Honest(faults[i])
  {
  }

  /** One call, with what its reply tells the client about the server's list. */
  method AddOne(server: Server, symbol: string, fault: Fault) returns (reply: Reply, ghost c: Call)
    modifies server
    ensures server.log == old(server.log) + [c] && c.symbol == symbol && c.reply == reply
    ensures server.list == if c.added then old(server.list) + [symbol] else old(server.list)
    ensures c.added ==> symbol !in old(server.list)
    ensures (reply == Created ==> c.added) && (c.added && !fault.LoseReply? ==> reply == Created)
    ensures Honest(fault) && reply.Failed? && Classify(reply.error) == Skip ==> symbol in old(server.list)
  {
    ghost var before := server.list;
    reply := server.Add(symbol, fault);
    c := Call(symbol, reply, server.list != before);
    AnswerIsNew(server.known, server.cap, before, symbol);
  }

  /** Everything the loop of adds has established after the first `i` symbols. */
  ghost predicate Reached(start: seq<string>, symbols: seq<string>, i: nat, calls: seq<Call>, list: seq<string>,
                          o: Outcome, hitTierCap: bool, reliable: bool, honest: bool) {
    && o.migrated + o.skipped + |o.failed| == i
    && CallsSoFar(start, calls, list, o.migrated, hitTierCap, reliable)
    && Tallied(symbols, i, calls, hitTierCap, o.skipped, o.failed)
    && Accounted(honest, list, o.failed, symbols, i)
  }

  lemma ReachedNothing(start: seq<string>, symbols: seq<string>, reliable: bool, honest: bool)
    requires Distinct(start)
    ensures Reached(start, symbols, 0, [], start, Outcome(0, 0, []), false, reliable, honest)
  {
    assert symbols[..0] == [];
  }

  lemma ReachedCapped(start: seq<string>, symbols: seq<string>, i: nat, calls: seq<Call>, list: seq<string>, o: Outcome,
                      reliable: bool, honest: bool)
    requires i < |symbols| && Reached(start, symbols, i, calls, list, o, true, reliable, honest)
    ensures Reached(start, symbols, i + 1, calls, list, o.(failed := o.failed + [Failure(symbols[i], TierCap)]), true,
                    reliable, honest)
  {
    hide CallsSoFar, Tallied, Accounted;
    TalliedCapped(symbols, i, calls, o.skipped, o.failed);
    AccountedReported(honest, list, list, o.failed, symbols, i, TierCap);
  }

  /** The counters after a reply: one of the three grows. */
  function Counted(o: Outcome, c: Call): Outcome {
    if c.reply == Created then o.(migrated := o.migrated + 1)
    else
      match Classify(c.reply.error)
      case Skip => o.(skipped := o.skipped + 1)
      case Stop => o.(failed := o.failed + [Failure(c.symbol, TierCap)])
      case Terminal(reason) => o.(failed := o.failed + [Failure(c.symbol, reason)])
  }

  lemma ReachedCalled(start: seq<string>, symbols: seq<string>, i: nat, calls: seq<Call>, list: seq<string>, o: Outcome,
                      reliable: bool, honest: bool, c: Call)
    requires i < |symbols| && Reached(start, symbols, i, calls, list, o, false, reliable, honest)
    requires c.symbol == symbols[i] && (c.added ==> c.symbol !in list)
    requires (c.reply == Created ==> c.added) && (reliable && c.added ==> c.reply == Created)
    requires honest && Skips(c) ==> c.symbol in list
    ensures Reached(start, symbols, i + 1, calls + [c], if c.added then list + [c.symbol] else list, Counted(o, c),
                    Stops(c), reliable, honest)
  {
    hide CallsSoFar, Tallied, Accounted, Skips, Stops, FailureOf, Counted, Classify, Inserted, CountCreated;
    var more := if c.added then list + [c.symbol] else list;
    OneMoreCall(start, calls, list, o.migrated, reliable, c);
    TalliedCall(symbols, i, calls, o.skipped, o.failed, c);
    CountedIs(o, c);
    if FailureOf(c.symbol, c.reply) == [] {
      assert o.failed + [] == o.failed;
      AccountedListed(honest, list, more, o.failed, symbols, i);
    } else {
      AccountedReported(honest, list, more, o.failed, symbols, i, FailureOf(c.symbol, c.reply)[0].reason);
    }
  }

  lemma CountedIs(o: Outcome, c: Call)
    ensures Counted(o, c)
            == Outcome(o.migrated + if c.reply == Created then 1 else 0, o.skipped + if Skips(c) then 1 else 0,
                       o.failed + FailureOf(c.symbol, c.reply))
    ensures FailureOf(c.symbol, c.reply) == [] <==> c.reply == Created || Skips(c)
    ensures var f := FailureOf(c.symbol, c.reply); f != [] ==> f == [Failure(c.symbol, f[0].reason)]
    ensures c.reply == Created ==> !Skips(c)
  {
    hide Classify;
  }

  /** Counting one reply; `stop` is the tier-cap flag. */
  method Count(migrated: nat, skipped: nat, failed: seq<Failure>, symbol: string, reply: Reply, ghost c: Call)
    returns (migrated': nat, skipped': nat, failed': seq<Failure>, stop: bool)
    requires c.symbol == symbol && c.reply == reply
    ensures Outcome(migrated', skipped', failed') == Counted(Outcome(migrated, skipped, failed), c)
    ensures stop == Stops(c)
  {
    migrated', skipped', failed', stop := migrated, skipped, failed, false;
    if reply == Created {
      migrated' := migrated + 1;
    } else {
      var reason := Network;
      if reply.error.Api? {
        var status := reply.error.status;
        if status == 409 {
          skipped' := skipped + 1;
          return;
        }
        if status == 403 && Includes(reply.error.message, "watchlist_limit_exceeded") {
          stop := true;
          failed' := failed + [Failure(symbol, TierCap)];
          return;
        }
        reason := if status == 404 then UnknownSymbol
                  else if status == 422 then InvalidSymbol
                  else if status == 401 then Unauthenticated
                  else ApiStatus(status);
      }
      failed' := failed + [Failure(symbol, reason)];
    }
  }

  /** The loop of adds, with the tier-cap flag. */
  method AddAll(server: Server, toMigrate: seq<string>, faults: seq<Fault>)
    returns (migrated: nat, skipped: nat, failed: seq<Failure>, hitTierCap: bool, ghost calls: seq<Call>)
    requires |toMigrate| <= |faults| && Distinct(server.list)
    modifies server
    ensures server.log == old(server.log) + calls
    ensures Reached(old(server.list), toMigrate, |toMigrate|, calls, server.list, Outcome(migrated, skipped, failed),
                    hitTierCap, Reliable(faults), AllHonest(faults))
  {
    ghost var start, reliable, honest := server.list, Reliable(faults), AllHonest(faults);
    migrated, skipped, failed, hitTierCap, calls := 0, 0, [], false, [];
    ReachedNothing(start, toMigrate, reliable, honest);
    hide *;
    for i := 0 to |toMigrate|
      invariant server.log == old(server.log) + calls
      invariant Reached(start, toMigrate, i, calls, server.list, Outcome(migrated, skipped, failed), hitTierCap,
                        reliable, honest)
    {
      ghost var o, list := Outcome(migrated, skipped, failed), server.list;
      if hitTierCap {
        ReachedCapped(start, toMigrate, i, calls, list, o, reliable, honest);
        failed := failed + [Failure(toMigrate[i], TierCap)];
        continue;
      }
      FaultAt(faults, i);
      var reply, c := AddOne(server, toMigrate[i], faults[i]);
      ReadingOf(c);
      ReachedCalled(start, toMigrate, i, calls, list, o, reliable, honest, c);
      assert (old(server.log) + calls) + [c] == old(server.log) + (calls + [c]);
      calls := calls + [c];
      migrated, skipped, failed, hitTierCap := Count(migrated, skipped, failed, toMigrate[i], reply, c);
    }
  }
}
