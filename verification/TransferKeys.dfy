/** Which snapshots import, said of the snapshot: every PRIMARY KEY, UNIQUE and
    REFERENCES clause of the tables, as a condition on the rows of the file. */
module TransferKeys {
  import opened Relational
  import opened Transfer

  // ---- Places in a gathered table ----

  predicate Before(i: nat, k: nat, j: nat, l: nat) {
    i < j || (i == j && k < l)
  }

  function RowKey<R, K>(apps: seq<AppExport>, rows: AppExport -> seq<R>, key: Child<R> -> K, i: nat, k: nat): K
    requires i < |apps| && k < |rows(apps[i])|
  {
    key(Child(apps[i].app.id, rows(apps[i])[k]))
  }

  // No two rows of the snapshot share a key.
  ghost predicate Apart<R, K(!new)>(apps: seq<AppExport>, rows: AppExport -> seq<R>, key: Child<R> -> K) {
    forall i: nat, k: nat, j: nat, l: nat ::
      i < |apps| && k < |rows(apps[i])| && j < |apps| && l < |rows(apps[j])| && Before(i, k, j, l)
      ==> RowKey(apps, rows, key, i, k) != RowKey(apps, rows, key, j, l)
  }

  function Place<R>(apps: seq<AppExport>, rows: AppExport -> seq<R>, i: nat, k: nat): nat
    requires i <= |apps|
  {
    |Gather(apps[..i], ExportId, rows)| + k
  }

  lemma GatherStep<R>(init: seq<AppExport>, last: AppExport, rows: AppExport -> seq<R>)
    ensures Gather(init + [last], ExportId, rows) == Gather(init, ExportId, rows) + Own(ExportId(last), rows(last))
  {
    assert (init + [last])[..|init|] == init;
  }

  lemma SplitAt<T>(s: seq<T>, i: nat)
    requires i < |s|
    ensures s[..i + 1] == s[..i] + [s[i]] && s[..i] + [s[i]] + s[i + 1..] == s
  {}

  lemma GatherUpTo<R>(apps: seq<AppExport>, rows: AppExport -> seq<R>, i: nat)
    requires i < |apps|
    ensures Gather(apps[..i + 1], ExportId, rows)
            == Gather(apps[..i], ExportId, rows) + Own(ExportId(apps[i]), rows(apps[i]))
    ensures Gather(apps[..i + 1], ExportId, rows) <= Gather(apps, ExportId, rows)
  {
    hide Gather, Own;
    SplitAt(apps, i);
    GatherStep(apps[..i], apps[i], rows);
    GatherPrefix(apps[..i] + [apps[i]], apps[i + 1..], ExportId, rows);
  }

  lemma PlaceHolds<R>(apps: seq<AppExport>, rows: AppExport -> seq<R>, i: nat, k: nat)
    requires i < |apps| && k < |rows(apps[i])|
    ensures var p := Place(apps, rows, i, k);
            p < |Gather(apps, ExportId, rows)|
            && Gather(apps, ExportId, rows)[p] == Child(apps[i].app.id, rows(apps[i])[k])
  {
    hide Gather;
    GatherUpTo(apps, rows, i);
    var p := Place(apps, rows, i, k);
    assert Gather(apps[..i + 1], ExportId, rows)[p] == Own(ExportId(apps[i]), rows(apps[i]))[k];
  }

  lemma {:induction false} PlacesGrow<R>(apps: seq<AppExport>, rows: AppExport -> seq<R>, i: nat, k: nat, j: nat)
    requires i < j <= |apps| && k < |rows(apps[i])|
    ensures Place(apps, rows, i, k) < Place(apps, rows, j, 0)
    decreases j
  {
    hide Gather;
    GatherUpTo(apps, rows, j - 1);
    if i < j - 1 {
      PlacesGrow(apps, rows, i, k, j - 1);
    }
  }

  lemma PlacesInOrder<R>(apps: seq<AppExport>, rows: AppExport -> seq<R>, i: nat, k: nat, j: nat, l: nat)
    requires i < |apps| && k < |rows(apps[i])| && j < |apps| && l < |rows(apps[j])|
    ensures Before(i, k, j, l) <==> Place(apps, rows, i, k) < Place(apps, rows, j, l)
  {
    if i < j {
      PlacesGrow(apps, rows, i, k, j);
    } else if j < i {
      PlacesGrow(apps, rows, j, l, i);
    }
  }

  lemma {:induction false} RowAt<R>(apps: seq<AppExport>, rows: AppExport -> seq<R>, n: nat, p: nat)
    returns (i: nat, k: nat)
    requires n <= |apps| && p < |Gather(apps[..n], ExportId, rows)|
    ensures i < n && k < |rows(apps[i])| && p == Place(apps, rows, i, k)
    decreases n
  {
    assert n > 0 by {
      assert apps[..0] == [];
    }
    hide Gather;
    GatherUpTo(apps, rows, n - 1);
    var before := |Gather(apps[..n - 1], ExportId, rows)|;
    if p < before {
      i, k := RowAt(apps, rows, n - 1, p);
    } else {
      i, k := n - 1, p - before;
    }
  }

  lemma GatheredApart<R, K(!new)>(apps: seq<AppExport>, rows: AppExport -> seq<R>, key: Child<R> -> K)
    ensures Distinct(Gather(apps, ExportId, rows), key) <==> Apart(apps, rows, key)
  {
    hide Gather, Place;
    var all := Gather(apps, ExportId, rows);
    assert apps[..|apps|] == apps;
    if Distinct(all, key) {
      forall i: nat, k: nat, j: nat, l: nat |
        i < |apps| && k < |rows(apps[i])| && j < |apps| && l < |rows(apps[j])| && Before(i, k, j, l)
        ensures RowKey(apps, rows, key, i, k) != RowKey(apps, rows, key, j, l)
      {
        PlaceHolds(apps, rows, i, k);
        PlaceHolds(apps, rows, j, l);
        PlacesInOrder(apps, rows, i, k, j, l);
      }
    }
    if Apart(apps, rows, key) {
      forall p, q | 0 <= p < q < |all|
        ensures key(all[p]) != key(all[q])
      {
        var i, k := RowAt(apps, rows, |apps|, p);
        var j, l := RowAt(apps, rows, |apps|, q);
        PlaceHolds(apps, rows, i, k);
        PlaceHolds(apps, rows, j, l);
        PlacesInOrder(apps, rows, i, k, j, l);
        assert RowKey(apps, rows, key, i, k) != RowKey(apps, rows, key, j, l);
      }
    }
  }

  // ---- The constraints ----

  predicate TenantKnown(tenant: string, d: Defaults, tenants: set<string>) {
    (if tenant == "" then d.tenant else tenant) in tenants
  }

  ghost predicate UserRowsOk(users: seq<User>, d: Defaults, tenants: set<string>) {
    && (forall i, j :: 0 <= i < j < |users| ==> users[i].id != users[j].id && users[i].upn != users[j].upn)
    && (forall i :: 0 <= i < |users| ==> TenantKnown(users[i].tenant, d, tenants))
  }

  ghost predicate GroupRowsOk(groups: seq<Group>, d: Defaults, tenants: set<string>) {
    && (forall i, j :: 0 <= i < j < |groups| ==> groups[i].id != groups[j].id)
    && (forall i :: 0 <= i < |groups| ==> TenantKnown(groups[i].tenant, d, tenants))
  }

  ghost predicate AppRowsOk(apps: seq<AppExport>, d: Defaults, tenants: set<string>) {
    && (forall i, j :: 0 <= i < j < |apps| ==> apps[i].app.id != apps[j].app.id)
    && (forall i :: 0 <= i < |apps| ==> TenantKnown(apps[i].app.tenant, d, tenants))
  }

  ghost predicate MemberRowsOk(s: Snapshot) {
    forall m :: m in s.members ==>
      (exists i :: 0 <= i < |s.groups| && s.groups[i].id == m.owner)
      && (exists i :: 0 <= i < |s.users| && s.users[i].id == m.row)
  }

  // Within one registration no redirect URI, no scope value and no role value
  // stands twice.
  ghost predicate OwnRowsOk(ax: AppExport) {
    && (forall k, l :: 0 <= k < l < |ax.redirects| ==> ax.redirects[k].uri != ax.redirects[l].uri)
    && (forall k, l :: 0 <= k < l < |ax.scopes| ==> ax.scopes[k].value != ax.scopes[l].value)
    && (forall k, l :: 0 <= k < l < |ax.roles| ==> ax.roles[k].value != ax.roles[l].value)
  }

  // Across all registrations no two secrets, scopes or roles share an id.
  ghost predicate RowIdsOk(apps: seq<AppExport>) {
    && (forall i: nat, k: nat, j: nat, l: nat ::
          i < |apps| && k < |apps[i].secrets| && j < |apps| && l < |apps[j].secrets| && Before(i, k, j, l)
          ==> apps[i].secrets[k].id != apps[j].secrets[l].id)
    && (forall i: nat, k: nat, j: nat, l: nat ::
          i < |apps| && k < |apps[i].scopes| && j < |apps| && l < |apps[j].scopes| && Before(i, k, j, l)
          ==> apps[i].scopes[k].id != apps[j].scopes[l].id)
    && (forall i: nat, k: nat, j: nat, l: nat ::
          i < |apps| && k < |apps[i].roles| && j < |apps| && l < |apps[j].roles| && Before(i, k, j, l)
          ==> apps[i].roles[k].id != apps[j].roles[l].id)
  }

  lemma UsersIff(users: seq<User>, d: Defaults, tenants: set<string>)
    ensures UsersOk(Map(users, d.FixUser), tenants) <==> UserRowsOk(users, d, tenants)
  {
    var r := Map(users, d.FixUser);
    assert forall i :: 0 <= i < |users| ==> UserId(r[i]) == users[i].id && UserName(r[i]) == users[i].upn;
    assert forall i :: 0 <= i < |users| ==> (r[i].tenant in tenants <==> TenantKnown(users[i].tenant, d, tenants));
  }

  lemma GroupsIff(groups: seq<Group>, d: Defaults, tenants: set<string>)
    ensures GroupsOk(Map(groups, d.FixGroup), tenants) <==> GroupRowsOk(groups, d, tenants)
  {
    var r := Map(groups, d.FixGroup);
    assert forall i :: 0 <= i < |groups| ==> GroupId(r[i]) == groups[i].id;
    assert forall i :: 0 <= i < |groups| ==> (r[i].tenant in tenants <==> TenantKnown(groups[i].tenant, d, tenants));
  }

  lemma AppsIff(apps: seq<AppExport>, d: Defaults, tenants: set<string>)
    ensures AppsOk(Map(apps, AppOf(d)), tenants) <==> AppRowsOk(apps, d, tenants)
  {
    var r := Map(apps, AppOf(d));
    assert forall i :: 0 <= i < |apps| ==> AppId(r[i]) == apps[i].app.id;
    assert forall i :: 0 <= i < |apps| ==> (r[i].tenant in tenants <==> TenantKnown(apps[i].app.tenant, d, tenants));
  }

  lemma MembersIff(s: Snapshot, d: Defaults)
    ensures EdgesOk(Dedup(s.members), Map(s.groups, d.FixGroup), Map(s.users, d.FixUser)) <==> MemberRowsOk(s)
  {
    var groups, users := Map(s.groups, d.FixGroup), Map(s.users, d.FixUser);
    EdgesAll(s.members, groups, users);
    forall m: Child<string>
      ensures EdgeOk(m, groups, users) <==>
                (exists i :: 0 <= i < |s.groups| && s.groups[i].id == m.owner)
                && (exists i :: 0 <= i < |s.users| && s.users[i].id == m.row)
    {
      assert forall i :: 0 <= i < |groups| ==> GroupId(groups[i]) == s.groups[i].id;
      assert forall i :: 0 <= i < |users| ==> UserId(users[i]) == s.users[i].id;
    }
    hide EdgeOk, Dedup;
  }

  // A key that holds the registration's id sets apart the rows of different
  // registrations.
  lemma RedirectsIff(apps: seq<AppExport>)
    requires forall i, j :: 0 <= i < j < |apps| ==> apps[i].app.id != apps[j].app.id
    ensures Apart(apps, RedirectsOf, UriKey) <==>
              forall i, k, l :: 0 <= i < |apps| && 0 <= k < l < |apps[i].redirects|
                ==> apps[i].redirects[k].uri != apps[i].redirects[l].uri
  {
    forall i: nat, k: nat | i < |apps| && k < |apps[i].redirects|
      ensures RowKey(apps, RedirectsOf, UriKey, i, k) == (apps[i].app.id, apps[i].redirects[k].uri)
    {
    }
    if Apart(apps, RedirectsOf, UriKey) {
      forall i, k, l | 0 <= i < |apps| && 0 <= k < l < |apps[i].redirects|
        ensures apps[i].redirects[k].uri != apps[i].redirects[l].uri
      {
        assert RowKey(apps, RedirectsOf, UriKey, i, k) != RowKey(apps, RedirectsOf, UriKey, i, l);
      }
    }
  }

  lemma SecretsIff(apps: seq<AppExport>, d: Defaults)
    ensures Apart(apps, SecretsOf(d), SecretKey) <==>
              forall i: nat, k: nat, j: nat, l: nat ::
                i < |apps| && k < |apps[i].secrets| && j < |apps| && l < |apps[j].secrets| && Before(i, k, j, l)
                ==> apps[i].secrets[k].id != apps[j].secrets[l].id
  {
    forall i: nat, k: nat | i < |apps| && k < |apps[i].secrets|
      ensures RowKey(apps, SecretsOf(d), SecretKey, i, k) == ("", apps[i].secrets[k].id)
    {
    }
    if Apart(apps, SecretsOf(d), SecretKey) {
      forall i: nat, k: nat, j: nat, l: nat |
        i < |apps| && k < |apps[i].secrets| && j < |apps| && l < |apps[j].secrets| && Before(i, k, j, l)
        ensures apps[i].secrets[k].id != apps[j].secrets[l].id
      {
        assert RowKey(apps, SecretsOf(d), SecretKey, i, k) != RowKey(apps, SecretsOf(d), SecretKey, j, l);
      }
    }
  }

  lemma ScopesIff(apps: seq<AppExport>)
    requires forall i, j :: 0 <= i < j < |apps| ==> apps[i].app.id != apps[j].app.id
    ensures Apart(apps, ScopesOf, ScopeKey) <==>
              forall i: nat, k: nat, j: nat, l: nat ::
                i < |apps| && k < |apps[i].scopes| && j < |apps| && l < |apps[j].scopes| && Before(i, k, j, l)
                ==> apps[i].scopes[k].id != apps[j].scopes[l].id
    ensures Apart(apps, ScopesOf, ScopeValue) <==>
              forall i, k, l :: 0 <= i < |apps| && 0 <= k < l < |apps[i].scopes|
                ==> apps[i].scopes[k].value != apps[i].scopes[l].value
  {
    forall i: nat, k: nat | i < |apps| && k < |apps[i].scopes|
      ensures RowKey(apps, ScopesOf, ScopeKey, i, k) == ("", apps[i].scopes[k].id)
      ensures RowKey(apps, ScopesOf, ScopeValue, i, k) == (apps[i].app.id, apps[i].scopes[k].value)
    {
    }
    if Apart(apps, ScopesOf, ScopeKey) {
      forall i: nat, k: nat, j: nat, l: nat |
        i < |apps| && k < |apps[i].scopes| && j < |apps| && l < |apps[j].scopes| && Before(i, k, j, l)
        ensures apps[i].scopes[k].id != apps[j].scopes[l].id
      {
        assert RowKey(apps, ScopesOf, ScopeKey, i, k) != RowKey(apps, ScopesOf, ScopeKey, j, l);
      }
    }
    if Apart(apps, ScopesOf, ScopeValue) {
      forall i, k, l | 0 <= i < |apps| && 0 <= k < l < |apps[i].scopes|
        ensures apps[i].scopes[k].value != apps[i].scopes[l].value
      {
        assert RowKey(apps, ScopesOf, ScopeValue, i, k) != RowKey(apps, ScopesOf, ScopeValue, i, l);
      }
    }
  }

  lemma RolesIff(apps: seq<AppExport>)
    requires forall i, j :: 0 <= i < j < |apps| ==> apps[i].app.id != apps[j].app.id
    ensures Apart(apps, RolesOf, RoleKey) <==>
              forall i: nat, k: nat, j: nat, l: nat ::
                i < |apps| && k < |apps[i].roles| && j < |apps| && l < |apps[j].roles| && Before(i, k, j, l)
                ==> apps[i].roles[k].id != apps[j].roles[l].id
    ensures Apart(apps, RolesOf, RoleValue) <==>
              forall i, k, l :: 0 <= i < |apps| && 0 <= k < l < |apps[i].roles|
                ==> apps[i].roles[k].value != apps[i].roles[l].value
  {
    forall i: nat, k: nat | i < |apps| && k < |apps[i].roles|
      ensures RowKey(apps, RolesOf, RoleKey, i, k) == ("", apps[i].roles[k].id)
      ensures RowKey(apps, RolesOf, RoleValue, i, k) == (apps[i].app.id, apps[i].roles[k].value)
    {
    }
    if Apart(apps, RolesOf, RoleKey) {
      forall i: nat, k: nat, j: nat, l: nat |
        i < |apps| && k < |apps[i].roles| && j < |apps| && l < |apps[j].roles| && Before(i, k, j, l)
        ensures apps[i].roles[k].id != apps[j].roles[l].id
      {
        assert RowKey(apps, RolesOf, RoleKey, i, k) != RowKey(apps, RolesOf, RoleKey, j, l);
      }
    }
    if Apart(apps, RolesOf, RoleValue) {
      forall i, k, l | 0 <= i < |apps| && 0 <= k < l < |apps[i].roles|
        ensures apps[i].roles[k].value != apps[i].roles[l].value
      {
        assert RowKey(apps, RolesOf, RoleValue, i, k) != RowKey(apps, RolesOf, RoleValue, i, l);
      }
    }
  }

  lemma ChildrenIff(apps: seq<AppExport>, d: Defaults)
    requires forall i, j :: 0 <= i < j < |apps| ==> apps[i].app.id != apps[j].app.id
    ensures Keyed(Gather(apps, ExportId, RedirectsOf), UriKey, UriKey)
            && Keyed(Gather(apps, ExportId, SecretsOf(d)), SecretKey, SecretKey)
            && Keyed(Gather(apps, ExportId, ScopesOf), ScopeKey, ScopeValue)
            && Keyed(Gather(apps, ExportId, RolesOf), RoleKey, RoleValue)
            <==> RowIdsOk(apps) && forall i :: 0 <= i < |apps| ==> OwnRowsOk(apps[i])
  {
    GatheredApart(apps, RedirectsOf, UriKey);
    GatheredApart(apps, SecretsOf(d), SecretKey);
    GatheredApart(apps, ScopesOf, ScopeKey);
    GatheredApart(apps, ScopesOf, ScopeValue);
    GatheredApart(apps, RolesOf, RoleKey);
    GatheredApart(apps, RolesOf, RoleValue);
    RedirectsIff(apps);
    SecretsIff(apps, d);
    ScopesIff(apps);
    RolesIff(apps);
    hide Gather, Apart, Distinct, Before;
  }

  // A snapshot imports exactly when its own rows meet the constraints: ids and
  // user names unique, tenants known, memberships between listed groups and
  // users, and the rows of registrations unique by id and by name.
  lemma ImportableIff(s: Snapshot, d: Defaults, tenants: set<string>)
    ensures Importable(s, d, tenants) <==>
              && UserRowsOk(s.users, d, tenants) && GroupRowsOk(s.groups, d, tenants) && MemberRowsOk(s)
              && AppRowsOk(s.apps, d, tenants) && RowIdsOk(s.apps)
              && forall i :: 0 <= i < |s.apps| ==> OwnRowsOk(s.apps[i])
  {
    UsersIff(s.users, d, tenants);
    GroupsIff(s.groups, d, tenants);
    AppsIff(s.apps, d, tenants);
    MembersIff(s, d);
    DedupSame(s.members);
    LoadedOwned(s.apps, d);
    if AppRowsOk(s.apps, d, tenants) {
      ChildrenIff(s.apps, d);
    }
    hide UsersOk, GroupsOk, AppsOk, EdgesOk, OwnedOk, Keyed, UserRowsOk, GroupRowsOk, AppRowsOk, MemberRowsOk, RowIdsOk;
    hide Gather, Dedup, Map, OwnRowsOk;
  }
}
