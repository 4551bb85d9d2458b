/** The trade journal: the batched listing of account groups.

    A table is the sequence of its rows in scan order, which every query keeps; a query is a filter. */
module Journal {
  import opened Options

  datatype Account = Account(id: int, details: string)

  datatype Group = Group(id: int, name: string, description: Option<string>, currency: string)

  datatype Member = Member(groupId: int, accountId: int, weight: Option<real>)

  datatype MemberView = MemberView(accountId: int, weight: Option<real>, account: Account)

  datatype GroupView = GroupView(group: Group, members: seq<MemberView>)

  // ----- queries

  /** `select(AccountGroupMember).where(group_id.in_(ids))` */
  function MembersIn(members: seq<Member>, ids: set<int>): seq<Member> {
    if members == [] then []
    else
      var last, before := members[|members| - 1], MembersIn(members[..|members| - 1], ids);
      if last.groupId in ids then before + [last] else before
  }

  /** `select(TradeAccount).where(id.in_(ids))` */
  function AccountsIn(accounts: seq<Account>, ids: set<int>): seq<Account> {
    if accounts == [] then []
    else
      var last, before := accounts[|accounts| - 1], AccountsIn(accounts[..|accounts| - 1], ids);
      if last.id in ids then before + [last] else before
  }

  /** The account a dictionary built from the rows in order holds for `id`. */
  function Find(accounts: seq<Account>, id: int): (r: Option<Account>)
    ensures r.Some? ==> r.value in accounts && r.value.id == id
    ensures r.None? ==> forall a :: a in accounts ==> a.id != id
  {
    if accounts == [] then None
    else
      var last := accounts[|accounts| - 1];
      var rest := Find(accounts[..|accounts| - 1], id);
      assert forall a :: a in accounts <==> a in accounts[..|accounts| - 1] || a == last;
      if last.id == id then Some(last) else rest
  }

  lemma {:induction false} MembersInBoth(members: seq<Member>, ids: set<int>, g: int)
    requires g in ids
    ensures MembersIn(MembersIn(members, ids), {g}) == MembersIn(members, {g})
  {
    if members != [] {
      var last, init := members[|members| - 1], members[..|members| - 1];
      MembersInBoth(init, ids, g);
      if last.groupId in ids {
        assert (MembersIn(init, ids) + [last])[..|MembersIn(init, ids)|] == MembersIn(init, ids);
      }
    }
  }

  lemma {:induction false} FindIn(accounts: seq<Account>, ids: set<int>, id: int)
    requires id in ids
    ensures Find(AccountsIn(accounts, ids), id) == Find(accounts, id)
  {
    if accounts != [] {
      var last, init := accounts[|accounts| - 1], accounts[..|accounts| - 1];
      FindIn(init, ids, id);
      if last.id in ids {
        assert (AccountsIn(init, ids) + [last])[..|AccountsIn(init, ids)|] == AccountsIn(init, ids);
      }
    }
  }

  // ----- what a listed group must show

  /** The members of group `g` that have an account, in table order; the others are dropped. */
  function Shown(members: seq<Member>, accounts: seq<Account>, g: int): seq<MemberView> {
    if members == [] then []
    else
      var last, before := members[|members| - 1], Shown(members[..|members| - 1], accounts, g);
      var found := Find(accounts, last.accountId);
      if last.groupId == g && found.Some?
      then before + [MemberView(last.accountId, last.weight, found.value)] else before
  }

  /** A view is shown exactly when a member row of that group and its account both exist. */
  lemma {:induction false} ShownIff(members: seq<Member>, accounts: seq<Account>, g: int, v: MemberView)
    ensures v in Shown(members, accounts, g) <==>
              Member(g, v.accountId, v.weight) in members && Find(accounts, v.accountId) == Some(v.account)
  {
    if members != [] {
      var last, init := members[|members| - 1], members[..|members| - 1];
      ShownIff(init, accounts, g, v);
      assert members == init + [last];
    }
  }

  lemma {:induction false} ShownOfMatching(members: seq<Member>, accounts: seq<Account>, g: int)
    ensures Shown(MembersIn(members, {g}), accounts, g) == Shown(members, accounts, g)
  {
    if members != [] {
      var last, init := members[|members| - 1], members[..|members| - 1];
      ShownOfMatching(init, accounts, g);
      if last.groupId == g {
        assert (MembersIn(init, {g}) + [last])[..|MembersIn(init, {g})|] == MembersIn(init, {g});
      }
    }
  }

  /** Every row with a listed group and a known account is shown once: the listed members add up to those rows. */
  lemma {:induction false} NothingShownTwice(groups: seq<Group>, members: seq<Member>, accounts: seq<Account>)
    requires forall i, j :: 0 <= i < j < |groups| ==> groups[i].id != groups[j].id
    ensures TotalShown(groups, members, accounts) == CountShowable(groups, members, accounts)
  {
    if members == [] {
      NothingToShow(groups, accounts);
    } else {
      var last, init := members[|members| - 1], members[..|members| - 1];
      NothingShownTwice(groups, init, accounts);
      OneMoreShown(groups, members, accounts);
    }
  }

  function TotalShown(groups: seq<Group>, members: seq<Member>, accounts: seq<Account>): nat {
    if groups == [] then 0
    else
      TotalShown(groups[..|groups| - 1], members, accounts) + |Shown(members, accounts, groups[|groups| - 1].id)|
  }

  predicate HasGroup(groups: seq<Group>, id: int) {
    exists i :: 0 <= i < |groups| && groups[i].id == id
  }

  function CountShowable(groups: seq<Group>, members: seq<Member>, accounts: seq<Account>): nat {
    if members == [] then 0
    else
      var last := members[|members| - 1];
      CountShowable(groups, members[..|members| - 1], accounts)
      + if HasGroup(groups, last.groupId) && Find(accounts, last.accountId).Some? then 1 else 0
  }

  lemma {:induction false} NothingToShow(groups: seq<Group>, accounts: seq<Account>)
    ensures TotalShown(groups, [], accounts) == 0
  {
    if groups != [] { NothingToShow(groups[..|groups| - 1], accounts); }
  }

  lemma {:induction false} OneMoreShown(groups: seq<Group>, members: seq<Member>, accounts: seq<Account>)
    requires members != []
    requires forall i, j :: 0 <= i < j < |groups| ==> groups[i].id != groups[j].id
    ensures var last := members[|members| - 1];
            TotalShown(groups, members, accounts) == TotalShown(groups, members[..|members| - 1], accounts)
              + if HasGroup(groups, last.groupId) && Find(accounts, last.accountId).Some? then 1 else 0
  {
    if groups != [] {
      var init := groups[..|groups| - 1];
      OneMoreShown(init, members, accounts);
      var id := members[|members| - 1].groupId;
      if HasGroup(init, id) {
        var i :| 0 <= i < |init| && init[i].id == id;
        assert groups[i].id == id;
      }
      assert HasGroup(groups, id) <==> HasGroup(init, id) || groups[|groups| - 1].id == id by {
        if HasGroup(groups, id) {
          var i :| 0 <= i < |groups| && groups[i].id == id;
          assert i < |init| ==> init[i].id == id;
        }
      }
    }
  }

  // ----- the per-group builder and the batched listing

  /** The inner loop both versions share: rows of one group, accounts from a dictionary. */
  method AssembleMembers(rows: seq<Member>, accounts: map<int, Account>, ghost g: int, ghost table: seq<Account>)
    returns (r: seq<MemberView>)
    requires forall m :: m in rows ==> m.groupId == g
    requires forall m :: m in rows ==> DictHas(accounts, table, m.accountId)
    ensures r == Shown(rows, table, g)
  {
    r := [];
    for i := 0 to |rows|
      invariant r == Shown(rows[..i], table, g)
    {
      var m := rows[i];
      assert rows[..i + 1][..i] == rows[..i];
      assert m in rows;
      if m.accountId in accounts {
        r := r + [MemberView(m.accountId, m.weight, accounts[m.accountId])];
      }
    }
    assert rows[..|rows|] == rows;
  }

  /** The dictionary answers for `id` as the table does. */
  predicate DictHas(dict: map<int, Account>, table: seq<Account>, id: int) {
    Find(table, id) == if id in dict then Some(dict[id]) else None
  }

  /** `{acc.id: acc for acc in rows}` */
  method ByIdDict(rows: seq<Account>) returns (dict: map<int, Account>)
    ensures forall id :: DictHas(dict, rows, id)
  {
    dict := map[];
    for i := 0 to |rows|
      invariant forall id :: DictHas(dict, rows[..i], id)
    {
      assert rows[..i + 1][..i] == rows[..i];
      ghost var before, now := dict, rows[..i + 1];
      dict := dict[rows[i].id := rows[i]];
      forall id ensures DictHas(dict, now, id) { assert DictHas(before, rows[..i], id); }
    }
    assert rows[..|rows|] == rows;
  }

  lemma {:induction false} MembersInGroup(members: seq<Member>, g: int)
    ensures forall m :: m in MembersIn(members, {g}) ==> m.groupId == g
  {
    if members != [] { MembersInGroup(members[..|members| - 1], g); }
  }

  /** `_build_group_response`: two queries for one group. */
  method BuildGroupResponse(group: Group, members: seq<Member>, accounts: seq<Account>) returns (r: GroupView)
    ensures r == GroupView(group, Shown(members, accounts, group.id))
  {
    var rows := MembersIn(members, {group.id});
    ShownOfMatching(members, accounts, group.id);
    if rows == [] {
      return GroupView(group, []);
    }
    var ids := set m | m in rows :: m.accountId;
    var dict := ByIdDict(AccountsIn(accounts, ids));
    forall m | m in rows ensures DictHas(dict, accounts, m.accountId) {
      FindIn(accounts, ids, m.accountId);
      assert DictHas(dict, AccountsIn(accounts, ids), m.accountId);
    }
    MembersInGroup(members, group.id);
    var views := AssembleMembers(rows, dict, group.id, accounts);
    r := GroupView(group, views);
  }

  /** `members_by_group` after the first `n` member rows. */
  ghost predicate Grouped(buckets: map<int, seq<Member>>, ids: set<int>, rows: seq<Member>) {
    buckets.Keys == ids && forall g :: g in ids ==> buckets[g] == MembersIn(rows, {g})
  }

  method GroupRows(ids: set<int>, rows: seq<Member>) returns (buckets: map<int, seq<Member>>)
    requires forall m :: m in rows ==> m.groupId in ids
    ensures Grouped(buckets, ids, rows)
  {
    buckets := map g | g in ids :: [];
    for i := 0 to |rows|
      invariant Grouped(buckets, ids, rows[..i])
    {
      assert rows[..i + 1][..i] == rows[..i];
      var m := rows[i];
      assert m in rows;
      buckets := buckets[m.groupId := buckets[m.groupId] + [m]];
    }
    assert rows[..|rows|] == rows;
  }

  lemma {:induction false} MembersInIds(members: seq<Member>, ids: set<int>)
    ensures forall m :: m in MembersIn(members, ids) ==> m.groupId in ids
  {
    if members != [] { MembersInIds(members[..|members| - 1], ids); }
  }

  lemma {:induction false} MembersInSub(members: seq<Member>, ids: set<int>)
    ensures forall m :: m in MembersIn(members, ids) ==> m in members
  {
    if members != [] { MembersInSub(members[..|members| - 1], ids); }
  }

  /** `list_groups`: three queries for all groups.  The same answer as the per-group builder on every group,
      whatever the tables hold: empty groups stay, members without an account are dropped. */
  method ListGroups(groups: seq<Group>, members: seq<Member>, accounts: seq<Account>) returns (r: seq<GroupView>)
    ensures |r| == |groups|
    ensures forall i :: 0 <= i < |r| ==> r[i] == GroupView(groups[i], Shown(members, accounts, groups[i].id))
  {
    if groups == [] {
      return [];
    }
    var groupIds := set i | 0 <= i < |groups| :: groups[i].id;
    var rows := MembersIn(members, groupIds);
    MembersInIds(members, groupIds);
    var buckets := GroupRows(groupIds, rows);
    var accountIds := set m | m in rows :: m.accountId;
    var dict: map<int, Account> := map[];
    if accountIds != {} {
      dict := ByIdDict(AccountsIn(accounts, accountIds));
    }
    forall m | m in rows ensures DictHas(dict, accounts, m.accountId) {
      assert m.accountId in accountIds;
      FindIn(accounts, accountIds, m.accountId);
      assert DictHas(dict, AccountsIn(accounts, accountIds), m.accountId);
    }
    r := [];
    for i := 0 to |groups|
      invariant |r| == i
      invariant forall k :: 0 <= k < i ==> r[k] == GroupView(groups[k], Shown(members, accounts, groups[k].id))
    {
      var g := groups[i].id;
      MembersInBoth(members, groupIds, g);
      MembersInGroup(members, g);
      MembersInSub(rows, {g});
      ShownOfMatching(members, accounts, g);
      var views := AssembleMembers(buckets[g], dict, g, accounts);
      r := r + [GroupView(groups[i], views)];
    }
  }
}
