/** What export and import promise together: an export can be imported unless a
    listed member was cut off by the listing limit, and importing it and
    exporting again gives the same snapshot exactly when import's defaults touch
    no row of it. */
module TransferRoundTrip {
  import opened Relational
  import opened Transfer

  // ---- Orderings ----

  lemma OrderingsHold()
    ensures TotalPreorder(UserLe) && TotalPreorder(GroupLe) && TotalPreorder(AppLe)
    ensures TotalPreorder(SecretLe) && TotalPreorder(ScopeLe) && TotalPreorder(RoleLe)
  {
    forall a: string, b: string, c: string
      ensures StringLe(a, b) || StringLe(b, a)
      ensures StringLe(a, b) && StringLe(b, c) ==> StringLe(a, c)
    {
      StringLeOrders(a, b, c);
    }
  }

  lemma LimitedWithin<T>(s: seq<T>)
    ensures |Limited(s)| <= LIST_LIMIT && multiset(Limited(s)) <= multiset(s)
  {
    if |s| > LIST_LIMIT {
      assert s == s[..LIST_LIMIT] + s[LIST_LIMIT..];
    }
  }

  // A listing holds rows of the table, and listing it again changes nothing.
  lemma Listing<T(!new)>(s: seq<T>, le: (T, T) -> bool)
    requires TotalPreorder(le)
    ensures multiset(Limited(OrderBy(s, le))) <= multiset(s)
    ensures Limited(OrderBy(Limited(OrderBy(s, le)), le)) == Limited(OrderBy(s, le))
  {
    var r := Limited(OrderBy(s, le));
    OrderByKeeps(s, le);
    LimitedWithin(OrderBy(s, le));
    assert Sorted(r, le);
    OrderByFixed(r, le);
  }

  lemma Reordering<T(!new)>(s: seq<T>, le: (T, T) -> bool)
    requires TotalPreorder(le)
    ensures multiset(OrderBy(s, le)) == multiset(s)
    ensures OrderBy(OrderBy(s, le), le) == OrderBy(s, le)
  {
    OrderByKeeps(s, le);
    OrderByFixed(OrderBy(s, le), le);
  }

  lemma ListedRow<T>(part: seq<T>, s: seq<T>, i: nat) returns (j: nat)
    requires multiset(part) <= multiset(s) && i < |part|
    ensures j < |s| && s[j] == part[i]
  {
    assert part[i] in multiset(part);
    assert part[i] in s;
    j :| j < |s| && s[j] == part[i];
  }

  // ---- The join behind group membership ----

  lemma {:induction false} JoinedHas(users: seq<User>, group: string, members: seq<Child<string>>, x: string)
    ensures x in Joined(users, group, members) <==> Child(group, x) in members && Names(users, UserId, x)
  {
    if users != [] {
      var init, last := users[..|users| - 1], users[|users| - 1];
      JoinedHas(init, group, members, x);
      if Names(init, UserId, x) {
        var i :| 0 <= i < |init| && UserId(init[i]) == x;
        assert UserId(users[i]) == x;
      }
      assert UserId(users[|users| - 1]) == last.id;
    }
  }

  lemma {:induction false} JoinedAlike(users: seq<User>, group: string, a: seq<Child<string>>, b: seq<Child<string>>)
    requires forall i :: 0 <= i < |users| ==> (Child(group, users[i].id) in a <==> Child(group, users[i].id) in b)
    ensures Joined(users, group, a) == Joined(users, group, b)
  {
    if users != [] {
      JoinedAlike(users[..|users| - 1], group, a, b);
    }
  }

  lemma {:induction false} JoinedPrefix(a: seq<User>, b: seq<User>, group: string, members: seq<Child<string>>)
    requires forall i :: 0 <= i < |b| ==> Child(group, b[i].id) !in members
    ensures Joined(a + b, group, members) == Joined(a, group, members)
  {
    if b == [] {
      assert a + b == a;
    } else {
      var init, whole := b[..|b| - 1], a + b;
      JoinedPrefix(a, init, group, members);
      assert whole[..|whole| - 1] == a + init && whole[|whole| - 1] == b[|b| - 1];
    }
  }

  lemma {:induction false} GatherAlike<P, T>(
      parents: seq<P>, id: P -> string, rows: P -> seq<T>, others: P -> seq<T>)
    requires forall i :: 0 <= i < |parents| ==> rows(parents[i]) == others(parents[i])
    ensures Gather(parents, id, rows) == Gather(parents, id, others)
  {
    if parents != [] {
      GatherAlike(parents[..|parents| - 1], id, rows, others);
    }
  }

  // ---- Rows the defaults leave alone ----

  ghost predicate SettledApp(ax: AppExport, d: Defaults) {
    && d.FixApp(ax.app) == ax.app
    && RedirectsOf(ax) == ax.redirects
    && Map(ax.secrets, d.FixSecret) == ax.secrets
    && RolesOf(ax) == ax.roles
  }

  ghost predicate Settled(s: Snapshot, d: Defaults) {
    && Map(s.users, d.FixUser) == s.users
    && Map(s.groups, d.FixGroup) == s.groups
    && forall i :: 0 <= i < |s.apps| ==> SettledApp(s.apps[i], d)
  }

  // No row lacks a tenant or a creation time, unless import has none to give,
  // and no defaulted column is empty.
  predicate Dated(tenant: string, created: int, d: Defaults) {
    (tenant != "" || d.tenant == "") && (created != 0 || d.now == 0)
  }

  ghost predicate NothingToFill(s: Snapshot, d: Defaults) {
    && (forall i :: 0 <= i < |s.users| ==> Dated(s.users[i].tenant, s.users[i].created, d))
    && (forall i :: 0 <= i < |s.groups| ==> Dated(s.groups[i].tenant, s.groups[i].created, d))
    && (forall i :: 0 <= i < |s.apps| ==> NothingToFillIn(s.apps[i], d))
  }

  ghost predicate NothingToFillIn(ax: AppExport, d: Defaults) {
    && Dated(ax.app.tenant, ax.app.created, d) && ax.app.groupClaims != ""
    && (forall k :: 0 <= k < |ax.redirects| ==> ax.redirects[k].kind != "")
    && (forall k :: 0 <= k < |ax.secrets| ==> ax.secrets[k].created != 0 || d.now == 0)
    && (forall k :: 0 <= k < |ax.roles| ==> ax.roles[k].memberTypes != "")
  }

  lemma SettledAppIff(ax: AppExport, d: Defaults)
    ensures SettledApp(ax, d) <==> NothingToFillIn(ax, d)
  {
    if SettledApp(ax, d) {
      assert forall k :: 0 <= k < |ax.redirects| ==> FixRedirect(ax.redirects[k]) == RedirectsOf(ax)[k];
      assert forall k :: 0 <= k < |ax.secrets| ==> d.FixSecret(ax.secrets[k]) == Map(ax.secrets, d.FixSecret)[k];
      assert forall k :: 0 <= k < |ax.roles| ==> FixRole(ax.roles[k]) == RolesOf(ax)[k];
    }
  }

  lemma SettledIff(s: Snapshot, d: Defaults)
    ensures Settled(s, d) <==> NothingToFill(s, d)
  {
    hide SettledApp, NothingToFillIn;
    forall i | 0 <= i < |s.apps|
      ensures SettledApp(s.apps[i], d) <==> NothingToFillIn(s.apps[i], d)
    {
      SettledAppIff(s.apps[i], d);
    }
    if Settled(s, d) {
      assert forall i :: 0 <= i < |s.users| ==> d.FixUser(s.users[i]) == Map(s.users, d.FixUser)[i];
      assert forall i :: 0 <= i < |s.groups| ==> d.FixGroup(s.groups[i]) == Map(s.groups, d.FixGroup)[i];
    }
    if NothingToFill(s, d) {
      assert forall i :: 0 <= i < |s.users| ==> d.FixUser(s.users[i]) == s.users[i];
      assert forall i :: 0 <= i < |s.groups| ==> d.FixGroup(s.groups[i]) == s.groups[i];
    }
  }

  // Whatever import stores is settled from then on.
  ghost predicate SettledTables(t: Tables, d: Defaults) {
    && (forall i :: 0 <= i < |t.users| ==> d.FixUser(t.users[i]) == t.users[i])
    && (forall i :: 0 <= i < |t.groups| ==> d.FixGroup(t.groups[i]) == t.groups[i])
    && (forall i :: 0 <= i < |t.apps| ==> d.FixApp(t.apps[i]) == t.apps[i])
    && FixedRows(t.redirects, FixRedirect)
    && FixedRows(t.secrets, d.FixSecret)
    && FixedRows(t.roles, FixRole)
  }

  ghost predicate FixedRows<R>(table: seq<Child<R>>, fix: R -> R) {
    forall j :: 0 <= j < |table| ==> fix(table[j].row) == table[j].row
  }

  lemma GatheredFixed<T>(apps: seq<AppExport>, rows: AppExport -> seq<T>, fix: T -> T)
    requires forall i, k :: 0 <= i < |apps| && 0 <= k < |rows(apps[i])| ==> fix(rows(apps[i])[k]) == rows(apps[i])[k]
    ensures FixedRows(Gather(apps, ExportId, rows), fix)
  {
    var table := Gather(apps, ExportId, rows);
    forall j | 0 <= j < |table|
      ensures fix(table[j].row) == table[j].row
    {
      var i := GatherOwner(apps, ExportId, rows, table[j]);
      var k :| 0 <= k < |rows(apps[i])| && rows(apps[i])[k] == table[j].row;
    }
  }

  lemma LoadedIsSettled(s: Snapshot, d: Defaults, later: Defaults)
    requires later == d || (d.tenant != "" && d.now != 0)
    ensures SettledTables(Loaded(s, d), later)
  {
    GatheredFixed(s.apps, RedirectsOf, FixRedirect);
    GatheredFixed(s.apps, SecretsOf(d), later.FixSecret);
    GatheredFixed(s.apps, RolesOf, FixRole);
  }

  lemma SelectedRow<R(!new)>(table: seq<Child<R>>, owner: string, rows: seq<R>, k: nat) returns (j: nat)
    requires multiset(rows) <= multiset(Select(table, owner)) && k < |rows|
    ensures j < |table| && table[j] == Child(owner, rows[k])
  {
    var c := Child(owner, rows[k]);
    SelectCount(table, c);
    assert rows[k] in multiset(rows);
    assert c in multiset(table);
    assert c in table;
    j :| j < |table| && table[j] == c;
  }

  lemma ExportedAppIsSettled(t: Tables, d: Defaults, a: App)
    requires SettledTables(t, d) && d.FixApp(a) == a
    ensures SettledApp(ExportApp(t, a), d)
  {
    hide OrderBy, Select, TotalPreorder;
    var ax := ExportApp(t, a);
    OrderingsHold();
    Reordering(Select(t.secrets, a.id), SecretLe);
    Reordering(Select(t.roles, a.id), RoleLe);
    forall k | 0 <= k < |ax.redirects|
      ensures RedirectsOf(ax)[k] == ax.redirects[k]
    {
      var j := SelectedRow(t.redirects, a.id, ax.redirects, k);
    }
    forall k | 0 <= k < |ax.secrets|
      ensures Map(ax.secrets, d.FixSecret)[k] == ax.secrets[k]
    {
      var j := SelectedRow(t.secrets, a.id, ax.secrets, k);
    }
    forall k | 0 <= k < |ax.roles|
      ensures RolesOf(ax)[k] == ax.roles[k]
    {
      var j := SelectedRow(t.roles, a.id, ax.roles, k);
    }
  }

  lemma ExportedIsSettled(t: Tables, d: Defaults)
    requires SettledTables(t, d)
    ensures Settled(Exported(t), d)
  {
    hide OrderBy, TotalPreorder, SettledApp, ExportApp;
    var s := Exported(t);
    var apps := Limited(OrderBy(t.apps, AppLe));
    OrderingsHold();
    Listing(t.users, UserLe);
    Listing(t.groups, GroupLe);
    Listing(t.apps, AppLe);
    forall i | 0 <= i < |s.users|
      ensures Map(s.users, d.FixUser)[i] == s.users[i]
    {
      var j := ListedRow(s.users, t.users, i);
    }
    forall i | 0 <= i < |s.groups|
      ensures Map(s.groups, d.FixGroup)[i] == s.groups[i]
    {
      var j := ListedRow(s.groups, t.groups, i);
    }
    forall i | 0 <= i < |s.apps|
      ensures SettledApp(s.apps[i], d)
    {
      var j := ListedRow(apps, t.apps, i);
      ExportedAppIsSettled(t, d, apps[i]);
    }
  }

  // ---- The round trip ----

  // The listing limit cut off no member of a listed group.
  ghost predicate MembersListed(s: Snapshot) {
    forall i :: 0 <= i < |s.members| ==> Names(s.users, UserId, s.members[i].row)
  }

  lemma ListedDistinct(t: Tables, tenants: set<string>)
    requires Consistent(t, tenants)
    ensures Distinct(Limited(OrderBy(t.users, UserLe)), UserId) && Distinct(OrderBy(t.users, UserLe), UserId)
    ensures Distinct(Limited(OrderBy(t.users, UserLe)), UserName)
    ensures Distinct(Exported(t).groups, GroupId)
    ensures Distinct(Limited(OrderBy(t.apps, AppLe)), AppId) && Distinct(Exported(t).apps, ExportId)
  {
    hide OrderBy, TotalPreorder;
    OrderingsHold();
    Listing(t.users, UserLe);
    Reordering(t.users, UserLe);
    Listing(t.groups, GroupLe);
    Listing(t.apps, AppLe);
    DistinctWithin(t.users, OrderBy(t.users, UserLe), UserId);
    DistinctWithin(t.users, Limited(OrderBy(t.users, UserLe)), UserId);
    DistinctWithin(t.users, Limited(OrderBy(t.users, UserLe)), UserName);
    DistinctWithin(t.groups, Limited(OrderBy(t.groups, GroupLe)), GroupId);
    var apps := Limited(OrderBy(t.apps, AppLe));
    DistinctWithin(t.apps, apps, AppId);
    forall i, j | 0 <= i < j < |apps|
      ensures ExportId(Exported(t).apps[i]) != ExportId(Exported(t).apps[j])
    {
      assert AppId(apps[i]) != AppId(apps[j]);
    }
  }

  // -- What an export lists --

  // Rows of the table, and all of them unless there are more than a million.
  ghost predicate ListingOf<T>(listed: seq<T>, table: seq<T>) {
    |listed| == (if |table| <= 1_000_000 then |table| else 1_000_000) && multiset(listed) <= multiset(table)
  }

  lemma LimitedIsListing<T(!new)>(table: seq<T>, le: (T, T) -> bool)
    requires TotalPreorder(le)
    ensures ListingOf(Limited(OrderBy(table, le)), table) && Sorted(Limited(OrderBy(table, le)), le)
  {
    OrderByKeeps(table, le);
    hide OrderBy;
    assert |OrderBy(table, le)| == |multiset(OrderBy(table, le))| == |multiset(table)|;
    LimitedWithin(OrderBy(table, le));
  }

  lemma ParentsListed(t: Tables)
    ensures var s, apps := Exported(t), Limited(OrderBy(t.apps, AppLe));
            && ListingOf(s.users, t.users)
            && (forall i, j :: 0 <= i < j < |s.users| ==> StringLe(s.users[i].id, s.users[j].id))
            && ListingOf(s.groups, t.groups)
            && (forall i, j :: 0 <= i < j < |s.groups| ==> StringLe(s.groups[i].id, s.groups[j].id))
            && ListingOf(apps, t.apps)
            && (forall i, j :: 0 <= i < j < |apps| ==> StringLe(apps[i].id, apps[j].id))
  {
    OrderingsHold();
    LimitedIsListing(t.users, UserLe);
    LimitedIsListing(t.groups, GroupLe);
    LimitedIsListing(t.apps, AppLe);
    hide OrderBy, Limited, TotalPreorder, StringLe, ListingOf, ExportApps, Gather;
  }

  ghost predicate ListsOwn(t: Tables, ax: AppExport) {
    && ax.redirects == Select(t.redirects, ax.app.id)
    && multiset(ax.secrets) == multiset(Select(t.secrets, ax.app.id))
    && (forall i, j :: 0 <= i < j < |ax.secrets| ==> ax.secrets[i].created <= ax.secrets[j].created)
    && multiset(ax.scopes) == multiset(Select(t.scopes, ax.app.id))
    && (forall i, j :: 0 <= i < j < |ax.scopes| ==> StringLe(ax.scopes[i].value, ax.scopes[j].value))
    && multiset(ax.roles) == multiset(Select(t.roles, ax.app.id))
    && (forall i, j :: 0 <= i < j < |ax.roles| ==> StringLe(ax.roles[i].value, ax.roles[j].value))
  }

  lemma ExportsOwn(t: Tables, a: App)
    ensures ListsOwn(t, ExportApp(t, a)) && ExportApp(t, a).app == a
  {
    OrderingsHold();
    OrderByKeeps(Select(t.secrets, a.id), SecretLe);
    OrderByKeeps(Select(t.scopes, a.id), ScopeLe);
    OrderByKeeps(Select(t.roles, a.id), RoleLe);
    hide OrderBy, Select, TotalPreorder, StringLe;
  }

  lemma NamedInOrder(t: Tables, x: string)
    requires Names(t.users, UserId, x)
    ensures Names(OrderBy(t.users, UserLe), UserId, x)
  {
    OrderingsHold();
    OrderByKeeps(t.users, UserLe);
    var all := OrderBy(t.users, UserLe);
    var i :| 0 <= i < |t.users| && UserId(t.users[i]) == x;
    assert t.users[i] in multiset(all);
    assert t.users[i] in all;
    var k :| 0 <= k < |all| && all[k] == t.users[i];
  }

  lemma MembershipListed(t: Tables, tenants: set<string>, m: Child<string>)
    requires Consistent(t, tenants)
    ensures m in Exported(t).members <==> m in t.members && Names(Exported(t).groups, GroupId, m.owner)
  {
    hide OrderBy, ExportApps, Joined, Limited, Gather, Keyed, OwnedOk, AppsOk;
    var s, all := Exported(t), OrderBy(t.users, UserLe);
    JoinedHas(all, m.owner, t.members, m.row);
    if m in s.members {
      var j := GatherOwner(s.groups, GroupId, MembersOf(t), m);
      assert GroupId(s.groups[j]) == m.owner;
    }
    if m in t.members && Names(s.groups, GroupId, m.owner) {
      var i :| 0 <= i < |s.groups| && GroupId(s.groups[i]) == m.owner;
      var k :| 0 <= k < |t.members| && t.members[k] == m;
      assert EdgeOk(t.members[k], t.groups, t.users);
      NamedInOrder(t, m.row);
      assert RowOf(m, s.groups[i], GroupId, MembersOf(t));
      GatherHas(s.groups, GroupId, MembersOf(t), m, i);
    }
  }

  // Users, groups and applications by id; a listed group's memberships, each
  // once, and no other; and every row a listed application owns, secrets by
  // creation time, scopes and roles by value.
  lemma ExportLists(t: Tables, tenants: set<string>) returns (apps: seq<App>)
    requires Consistent(t, tenants)
    ensures var s := Exported(t);
            && ListingOf(s.users, t.users)
            && (forall i, j :: 0 <= i < j < |s.users| ==> StringLe(s.users[i].id, s.users[j].id))
            && ListingOf(s.groups, t.groups)
            && (forall i, j :: 0 <= i < j < |s.groups| ==> StringLe(s.groups[i].id, s.groups[j].id))
            && ListingOf(apps, t.apps)
            && (forall i, j :: 0 <= i < j < |apps| ==> StringLe(apps[i].id, apps[j].id))
            && |apps| == |s.apps| && (forall i :: 0 <= i < |apps| ==> s.apps[i].app == apps[i])
            && (forall m :: m in s.members <==> m in t.members && Names(s.groups, GroupId, m.owner))
            && (forall i :: 0 <= i < |s.apps| ==> ListsOwn(t, s.apps[i]))
  {
    hide OrderBy, Limited, ExportApp, Gather, ListsOwn, StringLe, Consistent, ListingOf, Names;
    var s := Exported(t);
    apps := Limited(OrderBy(t.apps, AppLe));
    ParentsListed(t);
    forall m
      ensures m in s.members <==> m in t.members && Names(s.groups, GroupId, m.owner)
    {
      MembershipListed(t, tenants, m);
    }
    forall i | 0 <= i < |s.apps|
      ensures ListsOwn(t, s.apps[i]) && s.apps[i].app == apps[i]
    {
      ExportsOwn(t, apps[i]);
    }
  }

  // -- An export can be imported --

  // Rows with the same keys as rows taken from a table with unique keys.
  lemma {:induction false} GatheredKeys<R, K(!new)>(
      parents: seq<AppExport>, rows: AppExport -> seq<R>, raw: AppExport -> seq<R>, key: Child<R> -> K)
    requires forall i :: 0 <= i < |parents| ==> |rows(parents[i])| == |raw(parents[i])|
    requires forall i, k :: 0 <= i < |parents| && 0 <= k < |rows(parents[i])| ==>
               key(Child(ExportId(parents[i]), rows(parents[i])[k]))
               == key(Child(ExportId(parents[i]), raw(parents[i])[k]))
    ensures var a, b := Gather(parents, ExportId, rows), Gather(parents, ExportId, raw);
            |a| == |b| && forall j :: 0 <= j < |a| ==> key(a[j]) == key(b[j])
  {
    if parents != [] {
      var init, last := parents[..|parents| - 1], parents[|parents| - 1];
      GatheredKeys(init, rows, raw, key);
      var a, b := Own(ExportId(last), rows(last)), Own(ExportId(last), raw(last));
      assert forall j :: 0 <= j < |a| ==> key(a[j]) == key(b[j]);
    }
  }

  lemma OwnedDistinct<R(!new), K(!new)>(
      parents: seq<AppExport>, rows: AppExport -> seq<R>, raw: AppExport -> seq<R>,
      table: seq<Child<R>>, key: Child<R> -> K)
    requires Distinct(parents, ExportId) && Distinct(table, key)
    requires forall i :: 0 <= i < |parents| ==>
               |rows(parents[i])| == |raw(parents[i])|
               && multiset(raw(parents[i])) <= multiset(Select(table, ExportId(parents[i])))
    requires forall i, k :: 0 <= i < |parents| && 0 <= k < |rows(parents[i])| ==>
               key(Child(ExportId(parents[i]), rows(parents[i])[k]))
               == key(Child(ExportId(parents[i]), raw(parents[i])[k]))
    ensures Distinct(Gather(parents, ExportId, rows), key)
  {
    var a, b := Gather(parents, ExportId, rows), Gather(parents, ExportId, raw);
    GatherWithin(parents, ExportId, raw, table);
    DistinctWithin(table, b, key);
    GatheredKeys(parents, rows, raw, key);
    forall i, j | 0 <= i < j < |a|
      ensures key(a[i]) != key(a[j])
    {
      assert key(a[i]) == key(b[i]) && key(a[j]) == key(b[j]);
    }
  }

  function RawRedirects(ax: AppExport): seq<Redirect> { ax.redirects }
  function RawSecrets(ax: AppExport): seq<Secret> { ax.secrets }
  function RawRoles(ax: AppExport): seq<Role> { ax.roles }

  // What one exported registration carries, and nothing else.
  lemma CarriesOwnRows(t: Tables, i: nat)
    requires i < |Exported(t).apps|
    ensures var ax := Exported(t).apps[i];
            && multiset(ax.redirects) == multiset(Select(t.redirects, ax.app.id))
            && multiset(ax.secrets) == multiset(Select(t.secrets, ax.app.id))
            && multiset(ax.scopes) == multiset(Select(t.scopes, ax.app.id))
            && multiset(ax.roles) == multiset(Select(t.roles, ax.app.id))
  {
    hide OrderBy, Select, TotalPreorder;
    OrderingsHold();
    var a := Limited(OrderBy(t.apps, AppLe))[i];
    assert Exported(t).apps[i] == ExportApp(t, a);
    Reordering(Select(t.secrets, a.id), SecretLe);
    Reordering(Select(t.scopes, a.id), ScopeLe);
    Reordering(Select(t.roles, a.id), RoleLe);
  }

  lemma AppRowsDistinct(t: Tables, d: Defaults, tenants: set<string>)
    requires Consistent(t, tenants)
    ensures var l := Loaded(Exported(t), d);
            && Keyed(l.redirects, UriKey, UriKey) && Keyed(l.secrets, SecretKey, SecretKey)
            && Keyed(l.scopes, ScopeKey, ScopeValue) && Keyed(l.roles, RoleKey, RoleValue)
  {
    hide OrderBy, Select, Gather, TotalPreorder, Distinct, UsersOk, GroupsOk, AppsOk, EdgesOk, OwnedOk, Limited;
    var apps := Exported(t).apps;
    ListedDistinct(t, tenants);
    forall i | 0 <= i < |apps|
      ensures multiset(RawRedirects(apps[i])) <= multiset(Select(t.redirects, ExportId(apps[i])))
      ensures multiset(RawSecrets(apps[i])) <= multiset(Select(t.secrets, ExportId(apps[i])))
      ensures multiset(ScopesOf(apps[i])) <= multiset(Select(t.scopes, ExportId(apps[i])))
      ensures multiset(RawRoles(apps[i])) <= multiset(Select(t.roles, ExportId(apps[i])))
    {
      CarriesOwnRows(t, i);
    }
    OwnedDistinct(apps, RedirectsOf, RawRedirects, t.redirects, UriKey);
    OwnedDistinct(apps, SecretsOf(d), RawSecrets, t.secrets, SecretKey);
    OwnedDistinct(apps, ScopesOf, ScopesOf, t.scopes, ScopeKey);
    OwnedDistinct(apps, ScopesOf, ScopesOf, t.scopes, ScopeValue);
    OwnedDistinct(apps, RolesOf, RawRoles, t.roles, RoleKey);
    OwnedDistinct(apps, RolesOf, RawRoles, t.roles, RoleValue);
  }

  lemma MappedDistinct<A, B, K(!new)>(s: seq<A>, f: A -> B, key: A -> K, mapped: B -> K)
    requires Distinct(s, key) && forall i :: 0 <= i < |s| ==> mapped(f(s[i])) == key(s[i])
    ensures Distinct(Map(s, f), mapped)
  {
    forall i, j | 0 <= i < j < |s|
      ensures mapped(Map(s, f)[i]) != mapped(Map(s, f)[j])
    {
      assert key(s[i]) != key(s[j]);
    }
  }

  lemma ParentsImport(t: Tables, d: Defaults, tenants: set<string>)
    requires Consistent(t, tenants) && d.tenant in tenants
    ensures var l := Loaded(Exported(t), d);
            UsersOk(l.users, tenants) && GroupsOk(l.groups, tenants) && AppsOk(l.apps, tenants)
  {
    hide OrderBy, Gather, TotalPreorder, Select;
    var s, l := Exported(t), Loaded(Exported(t), d);
    var apps := Limited(OrderBy(t.apps, AppLe));
    OrderingsHold();
    ListedDistinct(t, tenants);
    Listing(t.users, UserLe);
    Listing(t.groups, GroupLe);
    Listing(t.apps, AppLe);
    MappedDistinct(s.users, d.FixUser, UserId, UserId);
    MappedDistinct(s.users, d.FixUser, UserName, UserName);
    MappedDistinct(s.groups, d.FixGroup, GroupId, GroupId);
    MappedDistinct(s.apps, AppOf(d), ExportId, AppId);
    forall i | 0 <= i < |s.users|
      ensures l.users[i].tenant in tenants
    {
      var j := ListedRow(s.users, t.users, i);
    }
    forall i | 0 <= i < |s.groups|
      ensures l.groups[i].tenant in tenants
    {
      var j := ListedRow(s.groups, t.groups, i);
    }
    forall i | 0 <= i < |s.apps|
      ensures l.apps[i].tenant in tenants
    {
      var j := ListedRow(apps, t.apps, i);
      assert s.apps[i] == ExportApp(t, apps[i]);
    }
  }

  lemma NamesMapped<A, B>(s: seq<A>, f: A -> B, id: A -> string, mapped: B -> string, x: string)
    requires forall i :: 0 <= i < |s| ==> mapped(f(s[i])) == id(s[i])
    ensures Names(Map(s, f), mapped, x) <==> Names(s, id, x)
  {
    var r := Map(s, f);
    assert forall i :: 0 <= i < |s| ==> mapped(r[i]) == id(s[i]);
  }

  // Every constraint survives the export and import's defaults, except that a
  // membership row may name a user beyond the listing limit.
  lemma ExportImports(t: Tables, d: Defaults, tenants: set<string>)
    requires Consistent(t, tenants) && d.tenant in tenants
    ensures Importable(Exported(t), d, tenants) <==> MembersListed(Exported(t))
  {
    hide OrderBy, Gather, TotalPreorder, Select, ExportApps, Limited;
    hide Distinct, UsersOk, GroupsOk, AppsOk, Keyed, OwnedOk;
    var s, l := Exported(t), Loaded(Exported(t), d);
    ParentsImport(t, d, tenants);
    AppRowsDistinct(t, d, tenants);
    LoadedOwned(s.apps, d);
    DedupSame(s.members);
    EdgesAll(s.members, l.groups, l.users);
    forall i | 0 <= i < |s.members|
      ensures EdgeOk(s.members[i], l.groups, l.users) <==> Names(s.users, UserId, s.members[i].row)
    {
      var m := s.members[i];
      NamesMapped(s.users, d.FixUser, UserId, UserId, m.row);
      NamesMapped(s.groups, d.FixGroup, GroupId, GroupId, m.owner);
      var g := GatherOwner(s.groups, GroupId, MembersOf(t), m);
      assert GroupId(s.groups[g]) == m.owner;
    }
  }

  // With no more than a million users the limit cuts off nothing.
  lemma SmallExportImports(t: Tables, d: Defaults, tenants: set<string>)
    requires Consistent(t, tenants) && d.tenant in tenants && |t.users| <= 1_000_000
    ensures Importable(Exported(t), d, tenants)
  {
    hide TotalPreorder, Consistent, Gather, ExportApps;
    var s := Exported(t);
    OrderingsHold();
    Reordering(t.users, UserLe);
    assert |OrderBy(t.users, UserLe)| == |multiset(OrderBy(t.users, UserLe))| == |t.users|;
    forall i | 0 <= i < |s.members|
      ensures Names(s.users, UserId, s.members[i].row)
    {
      var g := GatherOwner(s.groups, GroupId, MembersOf(t), s.members[i]);
      JoinedHas(OrderBy(t.users, UserLe), s.groups[g].id, t.members, s.members[i].row);
    }
    ExportImports(t, d, tenants);
  }

  // -- Importing an export and exporting again --

  // A listed group's membership rows are the ones exported.
  lemma EdgeExported(t: Tables, i: nat, k: nat)
    requires i < |Exported(t).groups| && k < |OrderBy(t.users, UserLe)|
    ensures var m := Child(Exported(t).groups[i].id, OrderBy(t.users, UserLe)[k].id);
            m in Exported(t).members <==> m in t.members
  {
    hide OrderBy, ExportApps, Joined, Limited, Gather;
    var s, all := Exported(t), OrderBy(t.users, UserLe);
    var g, u := s.groups[i].id, all[k].id;
    assert UserId(all[k]) == u;
    JoinedHas(all, g, t.members, u);
    if Child(g, u) in s.members {
      var j := GatherOwner(s.groups, GroupId, MembersOf(t), Child(g, u));
      JoinedHas(all, GroupId(s.groups[j]), t.members, u);
    }
    if Child(g, u) in t.members {
      assert RowOf(Child(g, u), s.groups[i], GroupId, MembersOf(t));
      GatherHas(s.groups, GroupId, MembersOf(t), Child(g, u), i);
    }
  }

  lemma NotCutOff(t: Tables, tenants: set<string>, i: nat, k: nat)
    requires Consistent(t, tenants) && MembersListed(Exported(t))
    requires i < |Exported(t).groups| && |Exported(t).users| <= k < |OrderBy(t.users, UserLe)|
    ensures Child(Exported(t).groups[i].id, OrderBy(t.users, UserLe)[k].id) !in t.members
  {
    hide OrderBy, ExportApps, Joined, Gather, Consistent, TotalPreorder, MembersListed;
    var s, all := Exported(t), OrderBy(t.users, UserLe);
    var m := Child(s.groups[i].id, all[k].id);
    ListedDistinct(t, tenants);
    EdgeExported(t, i, k);
    forall j | 0 <= j < |s.users|
      ensures UserId(s.users[j]) != m.row
    {
      assert all[j] == s.users[j] && UserId(all[j]) != UserId(all[k]);
    }
    if m in s.members {
      MemberListed(s, m);
    }
  }

  lemma MemberListed(s: Snapshot, m: Child<string>)
    requires MembersListed(s) && m in s.members
    ensures Names(s.users, UserId, m.row)
  {
  }

  lemma OneGroupBack(t: Tables, tenants: set<string>, i: nat)
    requires Consistent(t, tenants) && MembersListed(Exported(t)) && i < |Exported(t).groups|
    ensures var s := Exported(t);
            Joined(s.users, s.groups[i].id, Dedup(s.members))
            == Joined(OrderBy(t.users, UserLe), s.groups[i].id, t.members)
  {
    hide OrderBy, ExportApps, Consistent, Gather, MembersListed, Joined, Dedup;
    var s, all := Exported(t), OrderBy(t.users, UserLe);
    var g, rest := s.groups[i].id, all[|s.users|..];
    assert all == s.users + rest;
    DedupSame(s.members);
    forall k | 0 <= k < |s.users|
      ensures Child(g, s.users[k].id) in Dedup(s.members) <==> Child(g, s.users[k].id) in t.members
    {
      assert all[k] == s.users[k];
      EdgeExported(t, i, k);
    }
    JoinedAlike(s.users, g, Dedup(s.members), t.members);
    forall k | 0 <= k < |rest|
      ensures Child(g, rest[k].id) !in t.members
    {
      assert all[|s.users| + k] == rest[k];
      NotCutOff(t, tenants, i, |s.users| + k);
    }
    JoinedPrefix(s.users, rest, g, t.members);
  }

  lemma MembersBack(t: Tables, tenants: set<string>, d: Defaults)
    requires Consistent(t, tenants) && MembersListed(Exported(t)) && Settled(Exported(t), d)
    ensures var s := Exported(t);
            Gather(s.groups, GroupId, MembersOf(Loaded(s, d))) == s.members
  {
    hide OrderBy, TotalPreorder, ExportApps, Consistent, Joined, Gather;
    var s, l := Exported(t), Loaded(Exported(t), d);
    OrderingsHold();
    OrderByKeeps(t.users, UserLe);
    assert OrderBy(s.users, UserLe) == s.users by {
      Listed(t.users, UserLe);
    }
    forall i | 0 <= i < |s.groups|
      ensures MembersOf(l)(s.groups[i]) == MembersOf(t)(s.groups[i])
    {
      OneGroupBack(t, tenants, i);
    }
    GatherAlike(s.groups, GroupId, MembersOf(l), MembersOf(t));
  }

  lemma Listed<T(!new)>(s: seq<T>, le: (T, T) -> bool)
    requires TotalPreorder(le)
    ensures OrderBy(Limited(OrderBy(s, le)), le) == Limited(OrderBy(s, le))
  {
    OrderByKeeps(s, le);
    OrderByFixed(Limited(OrderBy(s, le)), le);
  }

  lemma AppBack(t: Tables, tenants: set<string>, d: Defaults, i: nat)
    requires Consistent(t, tenants) && i < |Exported(t).apps| && SettledApp(Exported(t).apps[i], d)
    ensures ExportApp(Loaded(Exported(t), d), Exported(t).apps[i].app) == Exported(t).apps[i]
  {
    hide OrderBy, TotalPreorder, Consistent, Gather, Select, Distinct;
    var s, l := Exported(t), Loaded(Exported(t), d);
    var ax := s.apps[i];
    var a := Limited(OrderBy(t.apps, AppLe))[i];
    assert ax == ExportApp(t, a);
    ListedDistinct(t, tenants);
    SelectGather(s.apps, ExportId, RedirectsOf, i);
    SelectGather(s.apps, ExportId, SecretsOf(d), i);
    SelectGather(s.apps, ExportId, ScopesOf, i);
    SelectGather(s.apps, ExportId, RolesOf, i);
    OrderingsHold();
    Reordering(Select(t.secrets, a.id), SecretLe);
    Reordering(Select(t.scopes, a.id), ScopeLe);
    Reordering(Select(t.roles, a.id), RoleLe);
  }

  lemma SettledRoundTrip(t: Tables, d: Defaults, tenants: set<string>)
    requires Consistent(t, tenants) && d.tenant in tenants && Importable(Exported(t), d, tenants)
    ensures Exported(Loaded(Exported(t), d)) == Exported(t) <==> Settled(Exported(t), d)
  {
    hide OrderBy, TotalPreorder, Consistent, Gather, ExportApp, SettledApp;
    var s, l := Exported(t), Loaded(Exported(t), d);
    LoadedIsSettled(s, d, d);
    ExportedIsSettled(l, d);
    if Settled(s, d) {
      ExportImports(t, d, tenants);
      MembersBack(t, tenants, d);
      OrderingsHold();
      Listing(t.users, UserLe);
      Listing(t.groups, GroupLe);
      Listing(t.apps, AppLe);
      var apps := Limited(OrderBy(t.apps, AppLe));
      assert l.apps == apps by {
        forall i | 0 <= i < |apps|
          ensures l.apps[i] == apps[i]
        {
          SettledHead(t, d, i);
        }
      }
      forall i | 0 <= i < |apps|
        ensures ExportApp(l, apps[i]) == s.apps[i]
      {
        SettledHead(t, d, i);
        AppBack(t, tenants, d, i);
      }
      assert Exported(l).apps == s.apps;
    }
  }

  lemma SettledHead(t: Tables, d: Defaults, i: nat)
    requires i < |Exported(t).apps| && SettledApp(Exported(t).apps[i], d)
    ensures Exported(t).apps[i].app == Limited(OrderBy(t.apps, AppLe))[i]
    ensures AppOf(d)(Exported(t).apps[i]) == Limited(OrderBy(t.apps, AppLe))[i]
  {
  }

  // The main result.  A caller can see beforehand whether every exported row
  // already has its tenant, its creation time and its defaulted columns.
  lemma RoundTrip(t: Tables, d: Defaults, tenants: set<string>)
    requires Consistent(t, tenants) && d.tenant in tenants && Importable(Exported(t), d, tenants)
    ensures Exported(Loaded(Exported(t), d)) == Exported(t) <==> NothingToFill(Exported(t), d)
  {
    SettledIff(Exported(t), d);
    SettledRoundTrip(t, d, tenants);
    hide Settled, NothingToFill, Exported, Loaded, Consistent, Importable;
  }

  // An imported directory survives every later export and import exactly,
  // whatever the later tenant and clock.
  lemma ImportedStaysExact(s: Snapshot, d: Defaults, later: Defaults, tenants: set<string>)
    requires Importable(s, d, tenants) && d.tenant != "" && d.now != 0 && later.tenant in tenants
    requires |s.users| <= 1_000_000
    ensures var t := Loaded(s, d);
            Importable(Exported(t), later, tenants) && Exported(Loaded(Exported(t), later)) == Exported(t)
  {
    hide Consistent, SettledTables, Settled, Exported;
    var t := Loaded(s, d);
    LoadedIsSettled(s, d, later);
    ExportedIsSettled(t, later);
    SmallExportImports(t, later, tenants);
    SettledRoundTrip(t, later, tenants);
  }

  // ---- Directories that do not survive ----

  const ADMIN := User("u", "t", "u@example.com", "User", "", "", "", "", true, 0)

  // One user created at time zero: the export imports, and comes back with
  // another creation time.
  lemma UnsettledDirectory()
    ensures var t, d := NO_ROWS.(users := [ADMIN]), Defaults("t", 7);
            && Consistent(t, {"t"}) && Importable(Exported(t), d, {"t"})
            && !NothingToFill(Exported(t), d) && Exported(Loaded(Exported(t), d)) != Exported(t)
  {
    var t, d := NO_ROWS.(users := [ADMIN]), Defaults("t", 7);
    assert Consistent(t, {"t"});
    SmallExportImports(t, d, {"t"});
    OneUserListed();
    hide Exported, Consistent, Importable;
    assert Exported(t).users[0].created == 0;
    RoundTrip(t, d, {"t"});
  }

  lemma OneUserListed()
    ensures Exported(NO_ROWS.(users := [ADMIN])).users == [ADMIN]
  {
    OrderByFixed([ADMIN], UserLe);
  }

  // Ids in a row, one letter longer each.
  function Xs(n: nat): (r: string)
    ensures |r| == n
  {
    if n == 0 then "" else ['x'] + Xs(n - 1)
  }

  lemma {:induction false} XsInOrder(i: nat, j: nat)
    requires i <= j
    ensures StringLe(Xs(i), Xs(j))
  {
    if i > 0 {
      XsInOrder(i - 1, j - 1);
    }
  }

  function Numbered(n: nat): User { User(Xs(n), "t", Xs(n), "User", "", "", "", "", true, 1) }

  function Crowd(n: nat): (r: seq<User>)
    ensures |r| == n && forall i :: 0 <= i < n ==> r[i] == Numbered(i)
  {
    seq(n, i requires 0 <= i < n => Numbered(i))
  }

  // One user more than an export lists, with the last of them in a group.
  function CrowdedDirectory(): Tables {
    NO_ROWS.(users := Crowd(LIST_LIMIT + 1), groups := [Group("g", "t", "Group", "", 1)],
             members := [Child("g", Xs(LIST_LIMIT))])
  }

  lemma CrowdIsInOrder(n: nat)
    ensures OrderBy(Crowd(n), UserLe) == Crowd(n)
    ensures UsersOk(Crowd(n), {"t"})
  {
    var users := Crowd(n);
    forall i, j | 0 <= i < j < n
      ensures UserLe(users[i], users[j]) && UserId(users[i]) != UserId(users[j])
      ensures UserName(users[i]) != UserName(users[j])
    {
      XsInOrder(i, j);
    }
    OrderByFixed(users, UserLe);
  }

  lemma CrowdedEdge()
    ensures EdgesOk(CrowdedDirectory().members, CrowdedDirectory().groups, CrowdedDirectory().users)
  {
    var users, groups := Crowd(LIST_LIMIT + 1), [Group("g", "t", "Group", "", 1)];
    assert UserId(users[LIST_LIMIT]) == Xs(LIST_LIMIT);
    assert GroupId(groups[0]) == "g";
    hide Xs, Crowd;
    assert EdgeOk(Child("g", Xs(LIST_LIMIT)), groups, users);
  }

  lemma NoAppsOk()
    ensures AppTablesOk(NO_ROWS, {"t"})
    ensures OwnedOk(NO_ROWS.redirects, []) && OwnedOk(NO_ROWS.secrets, [])
    ensures OwnedOk(NO_ROWS.scopes, []) && OwnedOk(NO_ROWS.roles, [])
  {
  }

  lemma CrowdedIsConsistent()
    ensures Consistent(CrowdedDirectory(), {"t"})
  {
    CrowdIsInOrder(LIST_LIMIT + 1);
    CrowdedEdge();
    NoAppsOk();
    hide UsersOk, EdgesOk, Keyed, OwnedOk, AppsOk, Xs, Crowd;
  }

  lemma CrowdedMember()
    ensures var s := Exported(CrowdedDirectory());
            s.users == Crowd(LIST_LIMIT + 1)[..LIST_LIMIT] && Child("g", Xs(LIST_LIMIT)) in s.members
  {
    var t := CrowdedDirectory();
    var s, last := Exported(t), Xs(LIST_LIMIT);
    CrowdIsInOrder(LIST_LIMIT + 1);
    OrderByFixed(t.groups, GroupLe);
    assert UserId(t.users[LIST_LIMIT]) == last && t.members[0] == Child("g", last);
    hide OrderBy, Xs, Crowd, Joined, Gather;
    JoinedHas(t.users, "g", t.members, last);
    assert s.groups == t.groups;
    GatherHas(s.groups, GroupId, MembersOf(t), Child("g", last), 0);
  }

  lemma LastIsCutOff()
    ensures !Names(Crowd(LIST_LIMIT + 1)[..LIST_LIMIT], UserId, Xs(LIST_LIMIT))
  {
    var users := Crowd(LIST_LIMIT + 1)[..LIST_LIMIT];
    forall i | 0 <= i < |users|
      ensures UserId(users[i]) != Xs(LIST_LIMIT)
    {
      assert users[i] == Numbered(i) && |Xs(i)| == i;
    }
  }

  // Its own export cannot be imported.
  lemma CrowdedExportDoesNotImport(d: Defaults)
    requires d.tenant == "t"
    ensures Consistent(CrowdedDirectory(), {"t"}) && !Importable(Exported(CrowdedDirectory()), d, {"t"})
  {
    CrowdedIsConsistent();
    CrowdedMember();
    LastIsCutOff();
    hide Consistent, Exported, Importable, CrowdedDirectory, Crowd, Xs, Names;
    var s := Exported(CrowdedDirectory());
    var m :| 0 <= m < |s.members| && s.members[m] == Child("g", Xs(LIST_LIMIT));
    assert !MembersListed(s);
    ExportImports(CrowdedDirectory(), d, {"t"});
  }
}
