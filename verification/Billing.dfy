/** Stripe webhooks: delivered at least once, deduplicated by event id, applied to users and an audit trail.

    Deliveries are handled one after another.  What `handle_webhook` extracts from the payload is taken
    as given; a delivery can die at any point before its first commit. */
module Billing {
  import opened Options

  datatype Tier = Free | Basic | Pro

  datatype User = User(tier: Tier, customer: Option<string>, subscription: Option<string>)

  /** Rows of audit_logs this router writes. */
  datatype Audit =
    | TierChange(user: int, before: Tier, after: Tier, event: Option<string>)
    | CancelRequested(user: int, subscription: string)

  /** A `WebhookResult`. */
  datatype Event = Event(kind: string, id: Option<string>, user: Option<int>, tier: Option<string>,
                         subscription: Option<string>, customer: Option<string>)

  datatype Db = Db(users: map<int, User>, processed: set<string>, audit: seq<Audit>)

  /** Python truthiness of an optional string and of an optional user id. */
  predicate HasText(s: Option<string>) { s.Some? && s.value != "" }
  predicate HasUser(u: Option<int>) { u.Some? && u.value != 0 }

  function TierOr(name: Option<string>, current: Tier): Tier {
    if name == Some("basic") then Basic else if name == Some("pro") then Pro else current
  }

  function Holders(users: map<int, User>, subscription: string): set<int> {
    set u | u in users && users[u].subscription == Some(subscription)
  }

  /** The lookup by subscription found two users and raised MultipleResultsFound. */
  predicate Ambiguous(db: Db, e: Event) {
    e.kind == "customer.subscription.deleted" && HasText(e.subscription)
    && |Holders(db.users, e.subscription.value)| > 1
  }

  function SetTier(db: Db, u: int, user: User, event: Option<string>): Db
    requires u in db.users
  {
    db.(users := db.users[u := user], audit := db.audit + [TierChange(u, db.users[u].tier, user.tier, event)])
  }

  /** What an event does to users and audit trail when its side effects run. */
  ghost function Effect(db: Db, e: Event): Db
    requires !Ambiguous(db, e)
  {
    if e.kind == "checkout.session.completed" && HasUser(e.user) then
      if e.user.value in db.users then
        var user := db.users[e.user.value];
        SetTier(db, e.user.value, User(TierOr(e.tier, user.tier), e.customer, e.subscription), e.id)
      else db
    else if e.kind == "customer.subscription.deleted" && HasText(e.subscription) then
      var holders := Holders(db.users, e.subscription.value);
      if exists u :: u in holders then
        var u :| u in holders;
        SetTier(db, u, db.users[u].(tier := Free, subscription := None), e.id)
      else db
    else db
  }

  function Record(db: Db, e: Event): Db {
    if HasText(e.id) then db.(processed := db.processed + {e.id.value}) else db
  }

  // ----- the handler

  datatype Answer = Applied | Duplicate | Raised

  class Store {
    var users: map<int, User>
    var processed: set<string>
    var audit: seq<Audit>

    function State(): Db
      reads this
    {
      Db(users, processed, audit)
    }

    constructor (users: map<int, User>)
      ensures State() == Db(users, {}, [])
    {
      this.users, this.processed, this.audit := users, {}, [];
    }

    /** `stripe_webhook`.  An exception, or a crash before the commit, leaves the database untouched. */
    method StripeWebhook(e: Event, crash: bool) returns (a: Answer)
      modifies this
      ensures a == Duplicate <==> HasText(e.id) && e.id.value in old(processed)
      ensures a == Raised <==> a != Duplicate && (crash || Ambiguous(old(State()), e))
      ensures a != Applied ==> State() == old(State())
      ensures a == Applied ==> State() == Effect(Record(old(State()), e), e)
    {
      var seen := processed;
      if e.id.Some? && e.id.value != "" {
        if e.id.value in processed { return Duplicate; }
        seen := processed + {e.id.value};
      }
      if crash { return Raised; }
      if e.kind == "checkout.session.completed" && e.user.Some? && e.user.value != 0 {
        if e.user.value in users {
          var id := e.user.value;
          var before := users[id].tier;
          var tier := before;
          if e.tier == Some("basic") { tier := Basic; }
          if e.tier == Some("pro") { tier := Pro; }
          var user := User(tier, e.customer, e.subscription);
          audit := audit + [TierChange(id, before, user.tier, e.id)];
          users := users[id := user];
        }
      } else if e.kind == "customer.subscription.deleted" && e.subscription.Some? && e.subscription.value != "" {
        var holders := set u | u in users && users[u].subscription == e.subscription;
        if |holders| > 1 { return Raised; }
        if id :| id in holders {
          OnlyOne(holders, id);
          var before := users[id].tier;
          audit := audit + [TierChange(id, before, Free, e.id)];
          users := users[id := users[id].(tier := Free, subscription := None)];
        }
      }
      processed := seen;
      a := Applied;
    }

    /** `cancel_subscription`: only an audit row; the tier and the subscription stay. */
    method CancelSubscription(u: int) returns (found: bool)
      requires u in users
      modifies this`audit
      ensures found <==> HasText(users[u].subscription)
      ensures audit == if found then old(audit) + [CancelRequested(u, users[u].subscription.value)] else old(audit)
    {
      found := users[u].subscription.Some? && users[u].subscription.value != "";
      if found { audit := audit + [CancelRequested(u, users[u].subscription.value)]; }
    }
  }

  /** The event ends the subscription `subscription`. */
  ghost predicate Ends(e: Event, subscription: string) {
    e.kind == "customer.subscription.deleted" && subscription != "" && e.subscription == Some(subscription)
  }

  /** What an applied checkout does to its user: the bought tier, or the old one for a name that is neither basic
      nor pro; the customer and subscription of the event; one audit row; nobody else changes. */
  lemma CheckoutMeans(db: Db, e: Event)
    requires e.kind == "checkout.session.completed" && e.user.Some? && e.user.value != 0 && e.user.value in db.users
    ensures var u, after := e.user.value, Effect(Record(db, e), e);
            && u in after.users && after.users.Keys == db.users.Keys
            && (e.tier == Some("basic") ==> after.users[u].tier == Basic)
            && (e.tier == Some("pro") ==> after.users[u].tier == Pro)
            && (e.tier != Some("basic") && e.tier != Some("pro") ==> after.users[u].tier == db.users[u].tier)
            && after.users[u].customer == e.customer && after.users[u].subscription == e.subscription
            && (forall v :: v in db.users && v != u ==> after.users[v] == db.users[v])
            && after.audit == db.audit + [TierChange(u, db.users[u].tier, after.users[u].tier, e.id)]
  {
  }

  /** What an applied deletion does: the one user who holds the subscription, if any, loses it and the paid tier
      and keeps the customer; nobody else changes. */
  lemma DeletionMeans(db: Db, e: Event, subscription: string)
    requires Ends(e, subscription) && !Ambiguous(db, e)
    ensures var after := Effect(Record(db, e), e);
            && after.users.Keys == db.users.Keys
            && (forall u :: u in db.users ==>
                  after.users[u] == if db.users[u].subscription == Some(subscription)
                                    then User(Free, db.users[u].customer, None) else db.users[u])
            && |after.audit| == |db.audit| + |Holders(db.users, subscription)|
            && db.audit <= after.audit
            && forall u :: u in Holders(db.users, subscription) ==>
                 after.audit[|db.audit|..] == [TierChange(u, db.users[u].tier, Free, e.id)]
  {
    var holders, after := Holders(db.users, subscription), Effect(Record(db, e), e);
    if u :| u in holders {
      OnlyOne(holders, u);
      assert after == SetTier(Record(db, e), u, db.users[u].(tier := Free, subscription := None), e.id);
      assert forall v :: v in db.users && v != u ==> v !in holders;
    } else {
      assert forall v :: v in db.users ==> v !in holders;
      assert |holders| == 0 by { assert holders == {}; }
      assert after == Record(db, e);
    }
  }

  /** A deletion is ambiguous exactly when two users hold the subscription. */
  lemma AmbiguousIffShared(db: Db, e: Event, subscription: string)
    requires Ends(e, subscription)
    ensures Ambiguous(db, e)
            <==> exists u, v :: u in db.users && v in db.users && u != v
                             && db.users[u].subscription == db.users[v].subscription == Some(subscription)
  {
    var holders := Holders(db.users, subscription);
    if |holders| > 1 {
      var u := SomeMember(holders);
      var v := SomeMember(holders - {u});
      assert u in db.users && v in db.users && db.users[u].subscription == Some(subscription);
    }
    if u, v :| u in db.users && v in db.users && u != v
               && db.users[u].subscription == db.users[v].subscription == Some(subscription) {
      TwoAreMany(holders, u, v);
    }
  }

  lemma NoMember(s: set<int>)
    ensures |s| == 0 || exists x :: x in s
  {
    if forall x :: x !in s { assert s == {}; }
  }

  lemma SomeMember(s: set<int>) returns (x: int)
    requires |s| > 0
    ensures x in s && |s - {x}| == |s| - 1
  {
    NoMember(s);
    x :| x in s;
  }

  lemma OnlyOne(s: set<int>, x: int)
    requires x in s && |s| <= 1
    ensures s == {x}
  {
    assert |s - {x}| == 0;
  }

  // ----- runs

  datatype Step =
    | Deliver(event: Event, crash: bool)
    | Cancel(user: int)

  /** The state after one step; it agrees with what the two methods of the store are proved to do. */
  ghost function Next(db: Db, s: Step): Db {
    match s
    case Deliver(e, crash) =>
      if (HasText(e.id) && e.id.value in db.processed) || crash || Ambiguous(db, e) then db
      else Effect(Record(db, e), e)
    case Cancel(u) =>
      if u in db.users && HasText(db.users[u].subscription)
      then db.(audit := db.audit + [CancelRequested(u, db.users[u].subscription.value)]) else db
  }

  ghost function Run(db: Db, steps: seq<Step>): Db {
    if steps == [] then db else Next(Run(db, steps[..|steps| - 1]), steps[|steps| - 1])
  }

  /** The steps that count: cancellations, and of each event id the first delivery that survives to its
      commit (events without an id count every time). */
  ghost function FirstCommits(db: Db, steps: seq<Step>): seq<Step> {
    if steps == [] then []
    else
      var n := |steps| - 1;
      var before := FirstCommits(db, steps[..n]);
      match steps[n]
      case Cancel(_) => before + [steps[n]]
      case Deliver(e, crash) =>
        if crash || Ambiguous(Straight(db, before), e) || Committed(db, before, e) then before else before + [steps[n]]
  }

  /** The event's id was there from the start or is that of an earlier counted delivery. */
  ghost predicate Committed(db: Db, counted: seq<Step>, e: Event) {
    HasText(e.id) && (e.id.value in db.processed || e.id.value in Ids(counted))
  }

  ghost function Ids(steps: seq<Step>): set<string> {
    set i | 0 <= i < |steps| && steps[i].Deliver? && HasText(steps[i].event.id) :: steps[i].event.id.value
  }

  /** Applying steps without any deduplication or crash. */
  ghost function Straight(db: Db, steps: seq<Step>): Db {
    if steps == [] then db
    else
      var before := Straight(db, steps[..|steps| - 1]);
      match steps[|steps| - 1]
      case Cancel(_) => Next(before, steps[|steps| - 1])
      case Deliver(e, _) => if Ambiguous(before, e) then before else Effect(Record(before, e), e)
  }

  lemma IdsAppend(steps: seq<Step>, s: Step)
    ensures Ids(steps + [s]) == Ids(steps) + if s.Deliver? && HasText(s.event.id) then {s.event.id.value} else {}
  {
    var more := steps + [s];
    forall id ensures id in Ids(more) <==>
                      id in Ids(steps) || (s.Deliver? && HasText(s.event.id) && id == s.event.id.value) {
      if id in Ids(steps) {
        var i :| 0 <= i < |steps| && steps[i].Deliver? && HasText(steps[i].event.id) && steps[i].event.id.value == id;
        assert more[i] == steps[i];
      }
      assert more[|steps|] == s;
    }
  }

  lemma EffectLeavesProcessed(db: Db, e: Event)
    requires !Ambiguous(db, e)
    ensures Effect(db, e).processed == db.processed
  {
  }

  /** Exactly once: whatever duplicates, crashes and retries a run contains, it ends in the very state
      (users, processed ids, audit rows) that the first surviving deliveries alone produce when simply
      applied in order; those have pairwise distinct ids, and the processed set is exactly theirs. */
  lemma {:induction false} ExactlyOnce(db: Db, steps: seq<Step>)
    ensures var counted := FirstCommits(db, steps);
            && Run(db, steps) == Straight(db, counted)
            && Run(db, steps).processed == db.processed + Ids(counted)
  {
    if steps != [] {
      var n := |steps| - 1;
      var before := FirstCommits(db, steps[..n]);
      ExactlyOnce(db, steps[..n]);
      IdsAppend(before, steps[n]);
      assert (before + [steps[n]])[..|before|] == before;
      var mid := Run(db, steps[..n]);
      if steps[n].Deliver? && !Ambiguous(Record(mid, steps[n].event), steps[n].event) {
        EffectLeavesProcessed(Record(mid, steps[n].event), steps[n].event);
      }
    }
  }

  ghost predicate DistinctIds(steps: seq<Step>) {
    forall i, j :: 0 <= i < j < |steps| && steps[i].Deliver? && steps[j].Deliver? && HasText(steps[i].event.id)
      ==> steps[i].event.id != steps[j].event.id
  }

  lemma {:induction false} CountedIdsAreDistinct(db: Db, steps: seq<Step>)
    ensures DistinctIds(FirstCommits(db, steps))
  {
    if steps != [] {
      var n := |steps| - 1;
      var before := FirstCommits(db, steps[..n]);
      CountedIdsAreDistinct(db, steps[..n]);
      forall i | 0 <= i < |before| && before[i].Deliver? && HasText(before[i].event.id)
        ensures before[i].event.id.value in Ids(before)
      {
      }
    }
  }

  /** Delivering an already committed event once more changes nothing. */
  lemma RedeliveryIsHarmless(db: Db, steps: seq<Step>, e: Event, crash: bool)
    requires HasText(e.id) && e.id.value in Run(db, steps).processed
    ensures Run(db, steps + [Deliver(e, crash)]) == Run(db, steps)
  {
    assert (steps + [Deliver(e, crash)])[..|steps|] == steps;
  }

  // ----- the audit trail

  /** The tier the trail says user `u` has, starting from `tier`. */
  function Replay(tier: Tier, audit: seq<Audit>, u: int): Tier {
    if audit == [] then tier
    else
      var last := audit[|audit| - 1];
      if last.TierChange? && last.user == u then last.after else Replay(tier, audit[..|audit| - 1], u)
  }

  /** Every row's before-tier is what the rows ahead of it say. */
  ghost predicate Linked(users: map<int, User>, audit: seq<Audit>) {
    forall i :: 0 <= i < |audit| && audit[i].TierChange? ==>
      audit[i].user in users && audit[i].before == Replay(users[audit[i].user].tier, audit[..i], audit[i].user)
  }

  /** The trail accounts for every tier. */
  ghost predicate Explains(users: map<int, User>, db: Db) {
    && db.users.Keys == users.Keys
    && Linked(users, db.audit)
    && forall u :: u in users ==> db.users[u].tier == Replay(users[u].tier, db.audit, u)
  }

  lemma AppendedTrail(users: map<int, User>, audit: seq<Audit>, row: Audit)
    requires Linked(users, audit)
    requires row.TierChange? ==> row.user in users && row.before == Replay(users[row.user].tier, audit, row.user)
    ensures Linked(users, audit + [row])
    ensures forall u, t :: Replay(t, audit + [row], u)
                        == if row.TierChange? && row.user == u then row.after else Replay(t, audit, u)
  {
    var more := audit + [row];
    assert more[..|audit|] == audit;
    forall i | 0 <= i < |more| && more[i].TierChange?
      ensures more[i].user in users && more[i].before == Replay(users[more[i].user].tier, more[..i], more[i].user)
    {
      if i < |audit| { assert more[..i] == audit[..i] && more[i] == audit[i]; }
    }
  }

  lemma SetTierKeepsExplained(users: map<int, User>, db: Db, u: int, user: User, event: Option<string>)
    requires Explains(users, db) && u in db.users
    ensures Explains(users, SetTier(db, u, user, event))
  {
    AppendedTrail(users, db.audit, TierChange(u, db.users[u].tier, user.tier, event));
  }

  lemma StepKeepsExplained(users: map<int, User>, db: Db, s: Step)
    requires Explains(users, db)
    ensures Explains(users, Next(db, s))
  {
    match s
    case Cancel(u) =>
      if u in db.users && HasText(db.users[u].subscription) {
        AppendedTrail(users, db.audit, CancelRequested(u, db.users[u].subscription.value));
      }
    case Deliver(e, crash) =>
      if Next(db, s) != db {
        var r := Record(db, e);
        if e.kind == "checkout.session.completed" && HasUser(e.user) {
          if e.user.value in r.users {
            SetTierKeepsExplained(users, r, e.user.value,
                                  User(TierOr(e.tier, r.users[e.user.value].tier), e.customer, e.subscription), e.id);
          }
        } else if e.kind == "customer.subscription.deleted" && HasText(e.subscription) {
          forall u | u in r.users {
            SetTierKeepsExplained(users, r, u, r.users[u].(tier := Free, subscription := None), e.id);
          }
        }
      }
  }

  /** Replaying the trail reconstructs every user's current tier: over every run from an empty trail, each
      row's before-tier is the tier the earlier rows give, and the last after-tier is the current one. */
  lemma {:induction false} TrailReconstructsTiers(users: map<int, User>, steps: seq<Step>)
    ensures Explains(users, Run(Db(users, {}, []), steps))
  {
    if steps != [] {
      TrailReconstructsTiers(users, steps[..|steps| - 1]);
      StepKeepsExplained(users, Run(Db(users, {}, []), steps[..|steps| - 1]), steps[|steps| - 1]);
    }
  }

  // ----- who loses a paid tier

  /** A delivery that takes user `u` off a paid tier: it survives, ends a subscription, and that subscription is the
      user's. */
  ghost predicate Downgrades(db: Db, s: Step, u: int) {
    && s.Deliver? && !s.crash && s.event.kind == "customer.subscription.deleted" && HasText(s.event.subscription)
    && u in db.users && db.users[u].tier != Free && db.users[u].subscription == s.event.subscription
  }

  lemma StepDowngrades(db: Db, s: Step, u: int)
    requires u in db.users && db.users[u].tier != Free
    ensures u in Next(db, s).users
    ensures Next(db, s).users[u].tier == Free ==> Downgrades(db, s, u)
  {
  }

  /** Over every run: a user on a paid tier at one moment and on the free tier at a later one was downgraded in
      between by the deletion of the subscription held at that moment; cancelling never does it. */
  lemma {:induction false} OnlyDeletionDowngrades(db: Db, steps: seq<Step>, u: int)
    requires u in db.users && db.users[u].tier != Free
    ensures u in Run(db, steps).users
    ensures Run(db, steps).users[u].tier == Free ==>
              exists i :: 0 <= i < |steps| && Downgrades(Run(db, steps[..i]), steps[i], u)
  {
    if steps != [] {
      var n := |steps| - 1;
      OnlyDeletionDowngrades(db, steps[..n], u);
      var before := Run(db, steps[..n]);
      if before.users[u].tier == Free {
        var i :| 0 <= i < n && Downgrades(Run(db, steps[..n][..i]), steps[..n][i], u);
        assert steps[..n][..i] == steps[..i];
        assert Downgrades(Run(db, steps[..i]), steps[i], u);
      } else {
        StepDowngrades(before, steps[n], u);
      }
      KeepsUsers(before, steps[n]);
    }
  }

  lemma KeepsUsers(db: Db, s: Step)
    ensures Next(db, s).users.Keys == db.users.Keys
  {
  }

  // ----- deliveries that are not exactly once

  function Checkout(id: Option<string>, user: int, subscription: string): Event {
    Event("checkout.session.completed", id, Some(user), Some("pro"), Some(subscription), Some("c"))
  }

  function Deletion(id: Option<string>, subscription: string): Event {
    Event("customer.subscription.deleted", id, None, None, Some(subscription), None)
  }

  lemma RunExtends(db: Db, steps: seq<Step>, s: Step)
    ensures Run(db, steps + [s]) == Next(Run(db, steps), s)
  {
    assert (steps + [s])[..|steps|] == steps;
  }

  /** Two users can come to hold one subscription id; its deletion then raises, now and on every retry. */
  lemma SharedSubscriptionNeverEnds(users: map<int, User>, retries: nat)
    requires 1 in users && 2 in users
    ensures var steps := [Deliver(Checkout(Some("a"), 1, "s"), false), Deliver(Checkout(Some("b"), 2, "s"), false)];
            var db, e := Run(Db(users, {}, []), steps), Deletion(Some("d"), "s");
            && Ambiguous(db, e)
            && Run(db, seq(retries, i => Deliver(e, false))) == db
  {
    var one, two := Deliver(Checkout(Some("a"), 1, "s"), false), Deliver(Checkout(Some("b"), 2, "s"), false);
    var start := Db(users, {}, []);
    RunExtends(start, [], one);
    RunExtends(start, [one], two);
    assert [] + [one] == [one] && [one] + [two] == [one, two];
    var db, e := Run(start, [one, two]), Deletion(Some("d"), "s");
    assert db.users[1].subscription == Some("s") && db.users[2].subscription == Some("s");
    assert {1, 2} <= Holders(db.users, "s");
    TwoAreMany(Holders(db.users, "s"), 1, 2);
    RetriesRaise(db, e, retries);
  }

  lemma TwoAreMany(s: set<int>, x: int, y: int)
    requires x in s && y in s && x != y
    ensures |s| > 1
  {
    assert y in s - {x} && |s - {x}| == |s| - 1;
  }

  lemma {:induction false} RetriesRaise(db: Db, e: Event, retries: nat)
    requires Ambiguous(db, e)
    ensures Run(db, seq(retries, i => Deliver(e, false))) == db
  {
    if retries > 0 {
      RetriesRaise(db, e, retries - 1);
      var before := seq(retries - 1, i => Deliver(e, false));
      assert seq(retries, i => Deliver(e, false)) == before + [Deliver(e, false)];
      RunExtends(db, before, Deliver(e, false));
    }
  }

  /** An event without an id is applied every time it is delivered: a second delivery adds a second audit row. */
  lemma EventsWithoutIdRepeat(users: map<int, User>)
    requires 1 in users
    ensures var s := Deliver(Checkout(None, 1, "s"), false);
            |Run(Db(users, {}, []), [s]).audit| == 1 && |Run(Db(users, {}, []), [s, s]).audit| == 2
  {
    var s, start := Deliver(Checkout(None, 1, "s"), false), Db(users, {}, []);
    RunExtends(start, [], s);
    RunExtends(start, [s], s);
    assert [] + [s] == [s] && [s] + [s] == [s, s];
  }
}
