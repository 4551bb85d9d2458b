/** The in-memory login limiter: it keeps, per address, only the attempts of the last window, and must
    decide as if it had kept them all. */
module RateLimit {

  /** One request: who and when (`time.time()`, as a real). */
  datatype Request = Request(ip: string, now: real)

  function Recent(times: seq<real>, now: real, window: real): seq<real> {
    if times == [] then []
    else
      var last, before := times[|times| - 1], Recent(times[..|times| - 1], now, window);
      if now - last < window then before + [last] else before
  }

  /** The times of one address. */
  function TimesOf(history: seq<Request>, ip: string): seq<real> {
    if history == [] then []
    else
      var last, before := history[|history| - 1], TimesOf(history[..|history| - 1], ip);
      if last.ip == ip then before + [last.now] else before
  }

  // ----- the limiter

  class Limiter {
    const limitMax: int
    const window: real
    var store: map<string, seq<real>>

    constructor (limitMax: int, window: real)
      ensures this.limitMax == limitMax && this.window == window && store == map[]
    {
      this.limitMax, this.window, this.store := limitMax, window, map[];
    }

    /** `_check_rate_limit`: prune, compare, append; a zero or negative limit switches it off. */
    method Check(r: Request) returns (accepted: bool)
      modifies this
      ensures accepted == Accepts(old(store), limitMax, window, r)
      ensures store == Served(old(store), limitMax, window, r)
    {
      if limitMax <= 0 { return true; }
      var attempts := Get(store, r.ip);
      var kept := [];
      for i := 0 to |attempts|
        invariant kept == Recent(attempts[..i], r.now, window)
      {
        assert attempts[..i + 1][..i] == attempts[..i];
        if r.now - attempts[i] < window { kept := kept + [attempts[i]]; }
      }
      assert attempts[..|attempts|] == attempts;
      store := store[r.ip := kept];
      if |kept| >= limitMax { return false; }
      store := store[r.ip := kept + [r.now]];
      accepted := true;
    }
  }

  /** `defaultdict(list)` */
  function Get(store: map<string, seq<real>>, ip: string): seq<real> {
    if ip in store then store[ip] else []
  }

  function Kept(store: map<string, seq<real>>, window: real, r: Request): seq<real> {
    Recent(Get(store, r.ip), r.now, window)
  }

  predicate Accepts(store: map<string, seq<real>>, limit: int, window: real, r: Request) {
    limit <= 0 || |Kept(store, window, r)| < limit
  }

  function Served(store: map<string, seq<real>>, limit: int, window: real, r: Request): map<string, seq<real>> {
    if limit <= 0 then store
    else
      var kept := Kept(store, window, r);
      store[r.ip := if |kept| < limit then kept + [r.now] else kept]
  }

  /** The store after a sequence of requests. */
  function After(limit: int, window: real, reqs: seq<Request>): map<string, seq<real>> {
    if reqs == [] then map[]
    else Served(After(limit, window, reqs[..|reqs| - 1]), limit, window, reqs[|reqs| - 1])
  }

  /** The requests the limiter lets through. */
  function Accepted(limit: int, window: real, reqs: seq<Request>): seq<Request> {
    if reqs == [] then []
    else
      var n := |reqs| - 1;
      var accepted := Accepts(After(limit, window, reqs[..n]), limit, window, reqs[n]);
      Counted(Accepted(limit, window, reqs[..n]), accepted, reqs[n])
  }

  function Counted(history: seq<Request>, accepted: bool, r: Request): seq<Request> {
    if accepted then history + [r] else history
  }

  // ----- the full history

  /** The clock never goes back between two requests of this address; other addresses do not matter. */
  ghost predicate NonDecreasing(reqs: seq<Request>, ip: string) {
    forall i, j :: 0 <= i <= j < |reqs| && reqs[i].ip == ip && reqs[j].ip == ip ==> reqs[i].now <= reqs[j].now
  }

  /** How many acceptances of this address lie in the window before `r`, nothing ever pruned. */
  function InWindow(history: seq<Request>, window: real, r: Request): nat {
    |Recent(TimesOf(history, r.ip), r.now, window)|
  }

  function Stale(times: seq<real>, now: real, window: real): seq<real> {
    if times == [] then []
    else
      var last, before := times[|times| - 1], Stale(times[..|times| - 1], now, window);
      if now - last < window then before else before + [last]
  }

  /** The acceptances of `ip` that pruning has thrown away so far. */
  function Forgotten(limit: int, window: real, reqs: seq<Request>, ip: string): seq<real> {
    if reqs == [] then []
    else
      var n := |reqs| - 1;
      var before, r := Forgotten(limit, window, reqs[..n], ip), reqs[n];
      if r.ip != ip || limit <= 0 then before
      else before + Stale(Get(After(limit, window, reqs[..n]), ip), r.now, window)
  }

  /** How many of the times have the property. */
  function Hits(times: seq<real>, p: real -> bool): nat {
    if times == [] then 0 else Hits(times[..|times| - 1], p) + if p(times[|times| - 1]) then 1 else 0
  }

  function Since(now: real, window: real): real -> bool {
    t => now - t < window
  }

  function Between(from: real, to: real): real -> bool {
    t => from <= t < to
  }

  lemma HitsAppend(times: seq<real>, t: real, p: real -> bool)
    ensures Hits(times + [t], p) == Hits(times, p) + if p(t) then 1 else 0
  {
    assert (times + [t])[..|times|] == times;
  }

  lemma {:induction false} HitsConcat(times: seq<real>, more: seq<real>, p: real -> bool)
    ensures Hits(times + more, p) == Hits(times, p) + Hits(more, p)
  {
    if more == [] {
      assert times + more == times;
    } else {
      var n := |more| - 1;
      HitsConcat(times, more[..n], p);
      assert times + more == times + more[..n] + [more[n]];
      HitsAppend(times + more[..n], more[n], p);
    }
  }

  lemma {:induction false} RecentIsHits(times: seq<real>, now: real, window: real)
    ensures |Recent(times, now, window)| == Hits(times, Since(now, window))
  {
    if times != [] { RecentIsHits(times[..|times| - 1], now, window); }
  }

  /** Pruning splits the times in two. */
  lemma {:induction false} PruningSplits(times: seq<real>, now: real, window: real, p: real -> bool)
    ensures Hits(times, p) == Hits(Recent(times, now, window), p) + Hits(Stale(times, now, window), p)
  {
    if times != [] {
      var n := |times| - 1;
      PruningSplits(times[..n], now, window, p);
      HitsAppend(Recent(times[..n], now, window), times[n], p);
      HitsAppend(Stale(times[..n], now, window), times[n], p);
    }
  }

  lemma RecentAppend(times: seq<real>, t: real, now: real, window: real)
    ensures Recent(times + [t], now, window)
         == if now - t < window then Recent(times, now, window) + [t] else Recent(times, now, window)
  {
    assert (times + [t])[..|times|] == times;
  }

  lemma TimesAppend(history: seq<Request>, r: Request, ip: string)
    ensures TimesOf(history + [r], ip) == if r.ip == ip then TimesOf(history, ip) + [r.now] else TimesOf(history, ip)
  {
    assert (history + [r])[..|history|] == history;
  }

  lemma AfterUnfolds(limit: int, window: real, reqs: seq<Request>)
    requires reqs != []
    ensures var n := |reqs| - 1; var store := After(limit, window, reqs[..n]);
            && After(limit, window, reqs) == Served(store, limit, window, reqs[n])
            && Accepted(limit, window, reqs)
               == Counted(Accepted(limit, window, reqs[..n]), Accepts(store, limit, window, reqs[n]), reqs[n])
  {
  }

  /** Whatever the clock does, every acceptance is either still stored or forgotten, once. */
  lemma {:induction false} NothingElseIsLost(limit: int, window: real, reqs: seq<Request>, ip: string, p: real -> bool)
    requires limit > 0
    ensures Hits(TimesOf(Accepted(limit, window, reqs), ip), p)
            == Hits(Get(After(limit, window, reqs), ip), p) + Hits(Forgotten(limit, window, reqs, ip), p)
  {
    if reqs != [] {
      var n := |reqs| - 1;
      var r, history, store := reqs[n], Accepted(limit, window, reqs[..n]), After(limit, window, reqs[..n]);
      NothingElseIsLost(limit, window, reqs[..n], ip, p);
      AfterUnfolds(limit, window, reqs);
      TimesAppend(history, r, ip);
      var stale := Stale(Get(store, ip), r.now, window);
      var forgot := Forgotten(limit, window, reqs[..n], ip);
      assert r.ip == ip ==> Forgotten(limit, window, reqs, ip) == forgot + stale;
      assert r.ip != ip ==> Forgotten(limit, window, reqs, ip) == forgot;
      hide Hits, After, Accepted, Forgotten, Stale, Recent, TimesOf;
      if r.ip == ip {
        PruningSplits(Get(store, ip), r.now, window, p);
        HitsConcat(forgot, stale, p);
        HitsAppend(TimesOf(history, ip), r.now, p);
        HitsAppend(Kept(store, window, r), r.now, p);
      }
    }
  }

  // ----- when the limiter decides by the full history

  /** Whatever the clock does, the full history holds in the window what the limiter counts, and the forgotten
      acceptances that are back in it. */
  lemma FullHistoryIsKeptAndForgotten(limit: int, window: real, reqs: seq<Request>, r: Request)
    requires limit > 0
    ensures InWindow(Accepted(limit, window, reqs), window, r)
            == |Kept(After(limit, window, reqs), window, r)|
               + |Recent(Forgotten(limit, window, reqs, r.ip), r.now, window)|
  {
    var p := Since(r.now, window);
    hide Hits, After, Accepted, Forgotten, Recent, TimesOf;
    NothingElseIsLost(limit, window, reqs, r.ip, p);
    RecentIsHits(TimesOf(Accepted(limit, window, reqs), r.ip), r.now, window);
    RecentIsHits(Get(After(limit, window, reqs), r.ip), r.now, window);
    RecentIsHits(Forgotten(limit, window, reqs, r.ip), r.now, window);
  }

  /** For every clock: the limiter counts the full history if and only if no forgotten acceptance is back in the
      window; its decision is the full history's unless the forgotten ones would have made up the limit, and
      then it is an acceptance. */
  lemma DecidesByFullHistoryIff(limit: int, window: real, reqs: seq<Request>, r: Request)
    requires limit > 0
    ensures var kept := |Kept(After(limit, window, reqs), window, r)|;
            var back := |Recent(Forgotten(limit, window, reqs, r.ip), r.now, window)|;
            var full := InWindow(Accepted(limit, window, reqs), window, r);
            var accepts := Accepts(After(limit, window, reqs), limit, window, r);
            && (kept == full <==> back == 0)
            && ((accepts <==> full < limit) <==> !(kept < limit <= kept + back))
            && (full < limit ==> accepts)
  {
    FullHistoryIsKeptAndForgotten(limit, window, reqs, r);
    hide InWindow, After, Accepted, Forgotten, Recent;
  }

  lemma {:induction false} StaleStaysStale(times: seq<real>, now: real, later: real, window: real)
    requires now <= later
    ensures Hits(Stale(times, now, window), Since(later, window)) == 0
  {
    if times != [] {
      var n := |times| - 1;
      StaleStaysStale(times[..n], now, later, window);
      HitsAppend(Stale(times[..n], now, window), times[n], Since(later, window));
    }
  }

  /** At a time no earlier than any request of the address, nothing forgotten is back in the window. */
  lemma {:induction false} ForgottenForGood(limit: int, window: real, reqs: seq<Request>, ip: string, now: real)
    requires limit > 0 && forall i :: 0 <= i < |reqs| && reqs[i].ip == ip ==> reqs[i].now <= now
    ensures Hits(Forgotten(limit, window, reqs, ip), Since(now, window)) == 0
  {
    if reqs != [] {
      var n := |reqs| - 1;
      ForgottenForGood(limit, window, reqs[..n], ip, now);
      var forgot := Forgotten(limit, window, reqs[..n], ip);
      var times := Get(After(limit, window, reqs[..n]), ip);
      if reqs[n].ip == ip {
        StaleStaysStale(times, reqs[n].now, now, window);
        HitsConcat(forgot, Stale(times, reqs[n].now, window), Since(now, window));
      }
    }
  }

  /** So a request that is no earlier than those of its own address is rejected exactly when the full, unpruned
      history already holds `limit` acceptances of its address in the preceding window. */
  lemma DecidesByFullHistory(limit: int, window: real, reqs: seq<Request>, r: Request)
    requires limit > 0 && forall i :: 0 <= i < |reqs| && reqs[i].ip == r.ip ==> reqs[i].now <= r.now
    ensures Accepts(After(limit, window, reqs), limit, window, r)
            <==> InWindow(Accepted(limit, window, reqs), window, r) < limit
  {
    hide InWindow, Hits, After, Accepted, Forgotten, Recent;
    DecidesByFullHistoryIff(limit, window, reqs, r);
    ForgottenForGood(limit, window, reqs, r.ip, r.now);
    RecentIsHits(Forgotten(limit, window, reqs, r.ip), r.now, window);
  }

  // ----- the bound

  /** Acceptances of `ip` at times in [from, to). */
  function CountIn(history: seq<Request>, ip: string, from: real, to: real): nat {
    Hits(TimesOf(history, ip), Between(from, to))
  }

  lemma CountAppend(history: seq<Request>, r: Request, ip: string, from: real, to: real)
    ensures CountIn(history + [r], ip, from, to)
         == CountIn(history, ip, from, to) + if r.ip == ip && from <= r.now < to then 1 else 0
  {
    TimesAppend(history, r, ip);
    HitsAppend(TimesOf(history, ip), r.now, Between(from, to));
  }

  /** Everything in an interval that ends a window later is recent at any moment of the interval. */
  lemma {:induction false} IntervalIsRecent(times: seq<real>, window: real, from: real, now: real)
    requires from <= now < from + window
    ensures Hits(times, Between(from, from + window)) <= Hits(times, Since(now, window))
  {
    if times != [] { IntervalIsRecent(times[..|times| - 1], window, from, now); }
  }

  /** Before request `i`, at a moment of the interval: the limiter counts fewer than `limit` in its window, but the
      stored and forgotten acceptances of the address already fill the interval. */
  ghost predicate Overfills(limit: int, window: real, reqs: seq<Request>, ip: string, from: real, i: nat) {
    && i < |reqs| && reqs[i].ip == ip && from <= reqs[i].now < from + window
    && var store := After(limit, window, reqs[..i]);
       |Kept(store, window, reqs[i])| < limit
       <= Hits(Get(store, ip), Between(from, from + window))
          + Hits(Forgotten(limit, window, reqs[..i], ip), Between(from, from + window))
  }

  /** Request `i` overfills exactly if it is accepted and the full history so far holds `limit` in the interval. */
  lemma OverfillsIff(limit: int, window: real, reqs: seq<Request>, ip: string, from: real, i: nat)
    requires limit > 0 && i < |reqs|
    ensures Overfills(limit, window, reqs, ip, from, i) <==>
              && reqs[i].ip == ip && from <= reqs[i].now < from + window
              && Accepts(After(limit, window, reqs[..i]), limit, window, reqs[i])
              && CountIn(Accepted(limit, window, reqs[..i]), ip, from, from + window) >= limit
  {
    hide Hits, After, Accepted, Forgotten, TimesOf;
    NothingElseIsLost(limit, window, reqs[..i], ip, Between(from, from + window));
  }

  lemma CountAfterOneMore(limit: int, window: real, reqs: seq<Request>, ip: string, from: real)
    requires reqs != []
    ensures var n := |reqs| - 1; var r := reqs[n];
            CountIn(Accepted(limit, window, reqs), ip, from, from + window)
            == CountIn(Accepted(limit, window, reqs[..n]), ip, from, from + window)
               + if Accepts(After(limit, window, reqs[..n]), limit, window, r) && r.ip == ip
                    && from <= r.now < from + window
                 then 1 else 0
  {
    AfterUnfolds(limit, window, reqs);
    hide After, Accepts, Accepted, CountIn;
    CountAppend(Accepted(limit, window, reqs[..|reqs| - 1]), reqs[|reqs| - 1], ip, from, from + window);
  }

  /** For every clock: an interval as long as the window holds more than `limit` acceptances of an address if and
      only if some request overfilled it. */
  lemma {:induction false} BoundBrokenIff(limit: int, window: real, reqs: seq<Request>, ip: string, from: real)
    requires limit > 0
    ensures CountIn(Accepted(limit, window, reqs), ip, from, from + window) > limit
            <==> exists i :: Overfills(limit, window, reqs, ip, from, i)
  {
    if reqs == [] {
      assert CountIn(Accepted(limit, window, reqs), ip, from, from + window) == 0;
    } else {
      var n := |reqs| - 1;
      BoundBrokenIff(limit, window, reqs[..n], ip, from);
      CountAfterOneMore(limit, window, reqs, ip, from);
      OverfillsIff(limit, window, reqs, ip, from, n);
      OverfillsEarlier(limit, window, reqs, ip, from);
      hide CountIn, Accepted, After, Accepts, Overfills;
      if i :| Overfills(limit, window, reqs[..n], ip, from, i) { assert Overfills(limit, window, reqs, ip, from, i); }
      if CountIn(Accepted(limit, window, reqs), ip, from, from + window) > limit {
        assert exists i :: Overfills(limit, window, reqs, ip, from, i);
      }
    }
  }

  lemma OverfillsEarlier(limit: int, window: real, reqs: seq<Request>, ip: string, from: real)
    requires reqs != []
    ensures forall i: nat :: i != |reqs| - 1 ==>
              (Overfills(limit, window, reqs, ip, from, i)
               <==> Overfills(limit, window, reqs[..|reqs| - 1], ip, from, i))
  {
    forall i: nat | i < |reqs| - 1 ensures reqs[..|reqs| - 1][..i] == reqs[..i] {
    }
  }

  /** And then a forgotten acceptance was back in the window of that request. */
  lemma OverfillingNeedsForgotten(limit: int, window: real, reqs: seq<Request>, ip: string, from: real, i: nat)
    requires limit > 0 && Overfills(limit, window, reqs, ip, from, i)
    ensures Hits(Forgotten(limit, window, reqs[..i], ip), Since(reqs[i].now, window)) > 0
  {
    var times, now := Get(After(limit, window, reqs[..i]), ip), reqs[i].now;
    IntervalIsRecent(times, window, from, now);
    IntervalIsRecent(Forgotten(limit, window, reqs[..i], ip), window, from, now);
    RecentIsHits(times, now, window);
    hide Hits, Recent, After, Forgotten;
  }

  /** While the clock does not go back for an address, no interval as long as the window holds more than `limit`
      acceptances of it. */
  lemma AtMostLimitPerWindow(limit: int, window: real, reqs: seq<Request>, ip: string, from: real)
    requires limit > 0 && NonDecreasing(reqs, ip)
    ensures CountIn(Accepted(limit, window, reqs), ip, from, from + window) <= limit
  {
    hide Overfills, CountIn, Accepted, NonDecreasing;
    BoundBrokenIff(limit, window, reqs, ip, from);
    forall i: nat ensures !Overfills(limit, window, reqs, ip, from, i) {
      NothingOverfills(limit, window, reqs, ip, from, i);
    }
  }

  lemma NothingOverfills(limit: int, window: real, reqs: seq<Request>, ip: string, from: real, i: nat)
    requires limit > 0 && NonDecreasing(reqs, ip)
    ensures !Overfills(limit, window, reqs, ip, from, i)
  {
    hide After, Accepts, Forgotten, Hits, Get;
    if i < |reqs| && reqs[i].ip == ip {
      assert forall k :: 0 <= k < i ==> reqs[..i][k] == reqs[k];
      ForgottenForGood(limit, window, reqs[..i], ip, reqs[i].now);
      hide Overfills;
      if Overfills(limit, window, reqs, ip, from, i) { OverfillingNeedsForgotten(limit, window, reqs, ip, from, i); }
    }
  }

  const BACKWARDS := [Request("a", 0.0), Request("a", 1.0), Request("a", 20.0), Request("a", 2.0)]

  lemma BackwardsIsAccepted()
    ensures Accepted(2, 10.0, BACKWARDS) == BACKWARDS
  {
    var a, b, c, d := Request("a", 0.0), Request("a", 1.0), Request("a", 20.0), Request("a", 2.0);
    var r1, r2, r3, r4 := [a], [a, b], [a, b, c], [a, b, c, d];
    assert r4[..3] == r3 && r3[..2] == r2 && r2[..1] == r1 && r1[..0] == [];
    RecentAppend([], 0.0, 1.0, 10.0);
    RecentAppend([], 0.0, 20.0, 10.0);
    RecentAppend([0.0], 1.0, 20.0, 10.0);
    RecentAppend([], 20.0, 2.0, 10.0);
    assert [] + [0.0] == [0.0] && [0.0] + [1.0] == [0.0, 1.0] && [] + [20.0] == [20.0];
    hide Recent;
    AfterUnfolds(2, 10.0, r1);
    AfterUnfolds(2, 10.0, r2);
    AfterUnfolds(2, 10.0, r3);
    AfterUnfolds(2, 10.0, r4);
    assert Accepted(2, 10.0, r4) == r4;
  }

  /** With a clock that goes back the bound fails: attempts at 0, 1 and 20, then one at 2, with two
      attempts allowed in ten seconds. */
  lemma ClockGoingBackBreaksBound()
    ensures CountIn(Accepted(2, 10.0, BACKWARDS), "a", 0.0, 10.0) == 3
  {
    BackwardsIsAccepted();
    hide Accepted;
    var r1, r2, r3 := BACKWARDS[..1], BACKWARDS[..2], BACKWARDS[..3];
    assert r2 == r1 + [BACKWARDS[1]] && r3 == r2 + [BACKWARDS[2]] && BACKWARDS == r3 + [BACKWARDS[3]];
    assert r1 == [] + [BACKWARDS[0]] && CountIn([], "a", 0.0, 10.0) == 0;
    CountAppend([], BACKWARDS[0], "a", 0.0, 10.0);
    CountAppend(r1, BACKWARDS[1], "a", 0.0, 10.0);
    CountAppend(r2, BACKWARDS[2], "a", 0.0, 10.0);
    CountAppend(r3, BACKWARDS[3], "a", 0.0, 10.0);
  }

  // ----- addresses are independent

  function Only(reqs: seq<Request>, ip: string): seq<Request> {
    if reqs == [] then []
    else
      var last, before := reqs[|reqs| - 1], Only(reqs[..|reqs| - 1], ip);
      if last.ip == ip then before + [last] else before
  }

  /** What one address gets depends on its own requests alone, whatever the clock does. */
  lemma {:induction false} AddressesAreIndependent(limit: int, window: real, reqs: seq<Request>, ip: string)
    ensures var alone := Only(reqs, ip);
            && Only(Accepted(limit, window, reqs), ip) == Accepted(limit, window, alone)
            && Get(After(limit, window, reqs), ip) == Get(After(limit, window, alone), ip)
  {
    if reqs != [] {
      var n := |reqs| - 1;
      AddressesAreIndependent(limit, window, reqs[..n], ip);
      var before, alone := Accepted(limit, window, reqs[..n]), Only(reqs[..n], ip);
      var store, own := After(limit, window, reqs[..n]), After(limit, window, alone);
      hide After, Recent;
      AfterUnfolds(limit, window, reqs);
      OnlyAppend(before, reqs[n], ip);
      if reqs[n].ip == ip {
        assert (alone + [reqs[n]])[..|alone|] == alone;
        AfterUnfolds(limit, window, alone + [reqs[n]]);
        assert Kept(store, window, reqs[n]) == Kept(own, window, reqs[n]);
      } else {
        assert Get(Served(store, limit, window, reqs[n]), ip) == Get(store, ip);
      }
    }
  }

  lemma OnlyAppend(history: seq<Request>, r: Request, ip: string)
    ensures Only(history + [r], ip) == if r.ip == ip then Only(history, ip) + [r] else Only(history, ip)
  {
    assert (history + [r])[..|history|] == history;
  }
}
