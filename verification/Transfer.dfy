/** The directory transfer of internal/store/export.go over the tables of
    internal/store/db.go: the snapshot an export reads, and an import that
    replaces the directory in one transaction. */
module Transfer {
  import opened Relational

  // ---- Rows ----
  // A nullable column reads back as "" or 0, which is also how import writes
  // NULL, so the two are one value here.

  datatype User = User(id: string, tenant: string, upn: string, displayName: string, givenName: string,
                       surname: string, mail: string, passwordHash: string, enabled: bool, created: int)
  datatype Group = Group(id: string, tenant: string, displayName: string, description: string, created: int)
  datatype App = App(id: string, tenant: string, displayName: string, confidential: bool, idUri: string,
                     optionalClaims: string, groupClaims: string, overageLimit: int, created: int)
  datatype Redirect = Redirect(uri: string, kind: string)
  datatype Secret = Secret(id: string, displayName: string, hash: string, hint: string, expires: int, created: int)
  datatype Scope = Scope(id: string, value: string, consentName: string, enabled: bool)
  datatype Role = Role(id: string, value: string, displayName: string, memberTypes: string, enabled: bool)

  // Each table in insertion order.
  datatype Tables = Tables(
    users: seq<User>, groups: seq<Group>, members: seq<Child<string>>, apps: seq<App>,
    redirects: seq<Child<Redirect>>, secrets: seq<Child<Secret>>,
    scopes: seq<Child<Scope>>, roles: seq<Child<Role>>)

  datatype AppExport = AppExport(
    app: App, redirects: seq<Redirect>, secrets: seq<Secret>, scopes: seq<Scope>, roles: seq<Role>)
  datatype Snapshot = Snapshot(
    users: seq<User>, groups: seq<Group>, members: seq<Child<string>>, apps: seq<AppExport>)

  // ---- Keys and constraints ----

  function UserId(u: User): string { u.id }
  function UserName(u: User): string { u.upn }
  function GroupId(g: Group): string { g.id }
  function AppId(a: App): string { a.id }
  function ExportId(ax: AppExport): string { ax.app.id }
  function Edge(m: Child<string>): Child<string> { m }
  function UriKey(c: Child<Redirect>): (string, string) { (c.owner, c.row.uri) }
  function SecretKey(c: Child<Secret>): (string, string) { ("", c.row.id) }
  function ScopeKey(c: Child<Scope>): (string, string) { ("", c.row.id) }
  function ScopeValue(c: Child<Scope>): (string, string) { (c.owner, c.row.value) }
  function RoleKey(c: Child<Role>): (string, string) { ("", c.row.id) }
  function RoleValue(c: Child<Role>): (string, string) { (c.owner, c.row.value) }

  ghost predicate Keyed<T, K(!new)>(s: seq<T>, key: T -> K, other: T -> K) {
    Distinct(s, key) && Distinct(s, other)
  }

  predicate Names<T>(s: seq<T>, id: T -> string, x: string) {
    exists i :: 0 <= i < |s| && id(s[i]) == x
  }

  predicate EdgeOk(m: Child<string>, groups: seq<Group>, users: seq<User>) {
    Names(groups, GroupId, m.owner) && Names(users, UserId, m.row)
  }

  ghost predicate UsersOk(users: seq<User>, tenants: set<string>) {
    Keyed(users, UserId, UserName) && forall i :: 0 <= i < |users| ==> users[i].tenant in tenants
  }

  ghost predicate GroupsOk(groups: seq<Group>, tenants: set<string>) {
    Distinct(groups, GroupId) && forall i :: 0 <= i < |groups| ==> groups[i].tenant in tenants
  }

  ghost predicate EdgesOk(members: seq<Child<string>>, groups: seq<Group>, users: seq<User>) {
    forall i :: 0 <= i < |members| ==> EdgeOk(members[i], groups, users)
  }

  ghost predicate AppsOk(apps: seq<App>, tenants: set<string>) {
    Distinct(apps, AppId) && forall i :: 0 <= i < |apps| ==> apps[i].tenant in tenants
  }

  ghost predicate OwnedOk<R>(rows: seq<Child<R>>, apps: seq<App>) {
    forall i :: 0 <= i < |rows| ==> Names(apps, AppId, rows[i].owner)
  }

  // Every PRIMARY KEY, UNIQUE and REFERENCES clause of the tables import writes.
  ghost predicate Consistent(t: Tables, tenants: set<string>) {
    && UsersOk(t.users, tenants)
    && GroupsOk(t.groups, tenants)
    && Distinct(t.members, Edge) && EdgesOk(t.members, t.groups, t.users)
    && AppsOk(t.apps, tenants)
    && Keyed(t.redirects, UriKey, UriKey) && OwnedOk(t.redirects, t.apps)
    && Keyed(t.secrets, SecretKey, SecretKey) && OwnedOk(t.secrets, t.apps)
    && Keyed(t.scopes, ScopeKey, ScopeValue) && OwnedOk(t.scopes, t.apps)
    && Keyed(t.roles, RoleKey, RoleValue) && OwnedOk(t.roles, t.apps)
  }

  // ---- Export ----

  const LIST_LIMIT := 1_000_000

  function Limited<T>(s: seq<T>): seq<T> {
    if |s| <= LIST_LIMIT then s else s[..LIST_LIMIT]
  }

  predicate UserLe(a: User, b: User) { StringLe(a.id, b.id) }
  predicate GroupLe(a: Group, b: Group) { StringLe(a.id, b.id) }
  predicate AppLe(a: App, b: App) { StringLe(a.id, b.id) }
  predicate SecretLe(a: Secret, b: Secret) { a.created <= b.created }
  predicate ScopeLe(a: Scope, b: Scope) { StringLe(a.value, b.value) }
  predicate RoleLe(a: Role, b: Role) { StringLe(a.value, b.value) }

  // The users joined with one group's membership rows, in the users' order.
  function Joined(users: seq<User>, group: string, members: seq<Child<string>>): seq<string> {
    if users == [] then []
    else
      var last := users[|users| - 1];
      Joined(users[..|users| - 1], group, members)
        + if Child(group, last.id) in members then [last.id] else []
  }

  function MembersOf(t: Tables): Group -> seq<string> {
    (g: Group) => Joined(OrderBy(t.users, UserLe), g.id, t.members)
  }

  function ExportApp(t: Tables, a: App): AppExport {
    AppExport(a, Select(t.redirects, a.id), OrderBy(Select(t.secrets, a.id), SecretLe),
              OrderBy(Select(t.scopes, a.id), ScopeLe), OrderBy(Select(t.roles, a.id), RoleLe))
  }

  function ExportApps(t: Tables, apps: seq<App>): (r: seq<AppExport>)
    ensures |r| == |apps| && forall i :: 0 <= i < |apps| ==> r[i] == ExportApp(t, apps[i])
  {
    seq(|apps|, i requires 0 <= i < |apps| => ExportApp(t, apps[i]))
  }

  function Exported(t: Tables): Snapshot {
    var groups := Limited(OrderBy(t.groups, GroupLe));
    Snapshot(Limited(OrderBy(t.users, UserLe)), groups, Gather(groups, GroupId, MembersOf(t)),
             ExportApps(t, Limited(OrderBy(t.apps, AppLe))))
  }

  // ---- Import's defaults ----

  datatype Defaults = Defaults(tenant: string, now: int) {
    function Tenant(tenant: string): string { if tenant == "" then this.tenant else tenant }
    function Created(created: int): int { if created == 0 then now else created }
    function FixUser(u: User): User { u.(tenant := Tenant(u.tenant), created := Created(u.created)) }
    function FixGroup(g: Group): Group { g.(tenant := Tenant(g.tenant), created := Created(g.created)) }
    function FixApp(a: App): App {
      a.(tenant := Tenant(a.tenant), groupClaims := Coalesce(a.groupClaims, "None"), created := Created(a.created))
    }
    function FixSecret(s: Secret): Secret { s.(created := Created(s.created)) }
  }

  function Coalesce(v: string, otherwise: string): string { if v == "" then otherwise else v }
  function FixRedirect(r: Redirect): Redirect { r.(kind := Coalesce(r.kind, "web")) }
  function FixRole(r: Role): Role { r.(memberTypes := Coalesce(r.memberTypes, "Application")) }

  function Map<A, B>(s: seq<A>, f: A -> B): (r: seq<B>)
    ensures |r| == |s| && forall i :: 0 <= i < |s| ==> r[i] == f(s[i])
  {
    seq(|s|, i requires 0 <= i < |s| => f(s[i]))
  }

  function AppOf(d: Defaults): AppExport -> App { (ax: AppExport) => d.FixApp(ax.app) }
  function RedirectsOf(ax: AppExport): seq<Redirect> { Map(ax.redirects, FixRedirect) }
  function SecretsOf(d: Defaults): AppExport -> seq<Secret> { (ax: AppExport) => Map(ax.secrets, d.FixSecret) }
  function ScopesOf(ax: AppExport): seq<Scope> { ax.scopes }
  function RolesOf(ax: AppExport): seq<Role> { Map(ax.roles, FixRole) }

  // INSERT OR IGNORE keeps the first of equal rows.
  function Dedup(s: seq<Child<string>>): seq<Child<string>> {
    if s == [] then []
    else
      var r := Dedup(s[..|s| - 1]);
      if s[|s| - 1] in r then r else r + [s[|s| - 1]]
  }

  lemma {:induction false} DedupSame(s: seq<Child<string>>)
    ensures forall m :: m in Dedup(s) <==> m in s
    ensures Distinct(Dedup(s), Edge)
  {
    if s != [] {
      var init, last := s[..|s| - 1], s[|s| - 1];
      assert s == init + [last];
      DedupSame(init);
    }
  }

  // The tables a snapshot stands for.
  function Loaded(s: Snapshot, d: Defaults): Tables {
    Tables(Map(s.users, d.FixUser), Map(s.groups, d.FixGroup), Dedup(s.members), Map(s.apps, AppOf(d)),
           Gather(s.apps, ExportId, RedirectsOf), Gather(s.apps, ExportId, SecretsOf(d)),
           Gather(s.apps, ExportId, ScopesOf), Gather(s.apps, ExportId, RolesOf))
  }

  ghost predicate Importable(s: Snapshot, d: Defaults, tenants: set<string>) {
    Consistent(Loaded(s, d), tenants)
  }

  // ---- What import stores, column by column ----

  predicate UserStored(row: User, u: User, tenant: string, now: int) {
    row == User(u.id, if u.tenant == "" then tenant else u.tenant, u.upn, u.displayName, u.givenName, u.surname,
                u.mail, u.passwordHash, u.enabled, if u.created == 0 then now else u.created)
  }

  predicate GroupStored(row: Group, g: Group, tenant: string, now: int) {
    row == Group(g.id, if g.tenant == "" then tenant else g.tenant, g.displayName, g.description,
                 if g.created == 0 then now else g.created)
  }

  predicate AppStored(row: App, a: App, tenant: string, now: int) {
    row == App(a.id, if a.tenant == "" then tenant else a.tenant, a.displayName, a.confidential, a.idUri,
               a.optionalClaims, if a.groupClaims == "" then "None" else a.groupClaims, a.overageLimit,
               if a.created == 0 then now else a.created)
  }

  predicate RedirectStored(row: Redirect, r: Redirect) {
    row == Redirect(r.uri, if r.kind == "" then "web" else r.kind)
  }

  predicate SecretStored(row: Secret, x: Secret, now: int) {
    row == Secret(x.id, x.displayName, x.hash, x.hint, x.expires, if x.created == 0 then now else x.created)
  }

  predicate RoleStored(row: Role, r: Role) {
    row == Role(r.id, r.value, r.displayName, if r.memberTypes == "" then "Application" else r.memberTypes, r.enabled)
  }

  // The rows one registration owns, in the snapshot's order.
  ghost predicate OwnStored(t: Tables, ax: AppExport, now: int) {
    var redirects, secrets := Select(t.redirects, ax.app.id), Select(t.secrets, ax.app.id);
    var scopes, roles := Select(t.scopes, ax.app.id), Select(t.roles, ax.app.id);
    && |redirects| == |ax.redirects|
    && (forall k :: 0 <= k < |redirects| ==> RedirectStored(redirects[k], ax.redirects[k]))
    && |secrets| == |ax.secrets| && (forall k :: 0 <= k < |secrets| ==> SecretStored(secrets[k], ax.secrets[k], now))
    && scopes == ax.scopes
    && |roles| == |ax.roles| && (forall k :: 0 <= k < |roles| ==> RoleStored(roles[k], ax.roles[k]))
  }

  ghost predicate ListedOwners<R>(table: seq<Child<R>>, apps: seq<AppExport>) {
    forall i :: 0 <= i < |table| ==> Names(apps, ExportId, table[i].owner)
  }

  ghost predicate ParentsStored(t: Tables, s: Snapshot, tenant: string, now: int) {
    && |t.users| == |s.users| && (forall i :: 0 <= i < |s.users| ==> UserStored(t.users[i], s.users[i], tenant, now))
    && |t.groups| == |s.groups|
    && (forall i :: 0 <= i < |s.groups| ==> GroupStored(t.groups[i], s.groups[i], tenant, now))
    && |t.apps| == |s.apps|
    && (forall i :: 0 <= i < |s.apps| ==> AppStored(t.apps[i], s.apps[i].app, tenant, now))
  }

  ghost predicate ChildrenStored(t: Tables, s: Snapshot, now: int) {
    && Distinct(t.members, Edge) && (forall m :: m in t.members <==> m in s.members)
    && (forall i :: 0 <= i < |s.apps| ==> OwnStored(t, s.apps[i], now))
    && ListedOwners(t.redirects, s.apps) && ListedOwners(t.secrets, s.apps)
    && ListedOwners(t.scopes, s.apps) && ListedOwners(t.roles, s.apps)
  }

  // The tables hold the snapshot's rows and no others, each with every column it
  // had; only an empty tenant, a zero creation time and three empty columns are
  // filled in.
  ghost predicate Stored(t: Tables, s: Snapshot, tenant: string, now: int) {
    ParentsStored(t, s, tenant, now) && ChildrenStored(t, s, now)
  }

  lemma OwnersListed<R>(apps: seq<AppExport>, rows: AppExport -> seq<R>)
    ensures ListedOwners(Gather(apps, ExportId, rows), apps)
  {
    var table := Gather(apps, ExportId, rows);
    forall i | 0 <= i < |table|
      ensures Names(apps, ExportId, table[i].owner)
    {
      var j := GatherOwner(apps, ExportId, rows, table[i]);
      assert ExportId(apps[j]) == table[i].owner;
    }
  }

  lemma LoadedOwn(s: Snapshot, d: Defaults, i: nat)
    requires Distinct(s.apps, ExportId) && i < |s.apps|
    ensures OwnStored(Loaded(s, d), s.apps[i], d.now)
  {
    hide Gather, Select;
    SelectGather(s.apps, ExportId, RedirectsOf, i);
    SelectGather(s.apps, ExportId, SecretsOf(d), i);
    SelectGather(s.apps, ExportId, ScopesOf, i);
    SelectGather(s.apps, ExportId, RolesOf, i);
  }

  lemma ParentsAreStored(s: Snapshot, d: Defaults)
    ensures ParentsStored(Loaded(s, d), s, d.tenant, d.now)
  {
    hide Gather, Dedup;
  }

  lemma DistinctExports(s: Snapshot, d: Defaults)
    requires Distinct(Loaded(s, d).apps, AppId)
    ensures Distinct(s.apps, ExportId)
  {
    var apps := Map(s.apps, AppOf(d));
    forall i, j | 0 <= i < j < |s.apps|
      ensures ExportId(s.apps[i]) != ExportId(s.apps[j])
    {
      assert AppId(apps[i]) != AppId(apps[j]);
    }
  }

  lemma LoadedIsStored(s: Snapshot, d: Defaults, tenants: set<string>)
    requires Importable(s, d, tenants)
    ensures Stored(Loaded(s, d), s, d.tenant, d.now)
  {
    hide Gather, Dedup, OwnStored, Keyed, UsersOk, GroupsOk, EdgesOk, OwnedOk, ParentsStored, Distinct, ListedOwners;
    var t := Loaded(s, d);
    ParentsAreStored(s, d);
    DedupSame(s.members);
    DistinctExports(s, d);
    forall i | 0 <= i < |s.apps|
      ensures OwnStored(t, s.apps[i], d.now)
    {
      LoadedOwn(s, d, i);
    }
    OwnersListed(s.apps, RedirectsOf);
    OwnersListed(s.apps, SecretsOf(d));
    OwnersListed(s.apps, ScopesOf);
    OwnersListed(s.apps, RolesOf);
  }

  // ---- The store ----

  // Rows that stand for sign-ins in progress; only their presence matters.
  datatype Grants = Grants(codes: seq<string>, refreshTokens: seq<string>, sessions: seq<string>,
                           deviceCodes: seq<string>)

  const NO_GRANTS := Grants([], [], [], [])
  const NO_ROWS := Tables([], [], [], [], [], [], [], [])

  lemma EdgesAll(members: seq<Child<string>>, groups: seq<Group>, users: seq<User>)
    ensures EdgesOk(Dedup(members), groups, users) <==> EdgesOk(members, groups, users)
  {
    DedupSame(members);
    var r := Dedup(members);
    if EdgesOk(r, groups, users) {
      forall i | 0 <= i < |members|
        ensures EdgeOk(members[i], groups, users)
      {
        assert members[i] in r;
      }
    }
    if EdgesOk(members, groups, users) {
      forall i | 0 <= i < |r|
        ensures EdgeOk(r[i], groups, users)
      {
        assert r[i] in members;
      }
    }
  }

  function PlusApp(t: Tables, ax: AppExport, d: Defaults): Tables {
    var id := ax.app.id;
    t.(apps := t.apps + [d.FixApp(ax.app)], redirects := t.redirects + Own(id, RedirectsOf(ax)),
       secrets := t.secrets + Own(id, Map(ax.secrets, d.FixSecret)), scopes := t.scopes + Own(id, ax.scopes),
       roles := t.roles + Own(id, RolesOf(ax)))
  }

  class DirectoryStore {
    const tenants: set<string>
    var tables: Tables
    var grants: Grants

    constructor (tenants: set<string>)
      ensures this.tenants == tenants && tables == NO_ROWS && grants == NO_GRANTS
    {
      this.tenants := tenants;
      tables := NO_ROWS;
      grants := NO_GRANTS;
    }

    // Reads the whole directory, group by group and app by app.
    method ExportDirectory() returns (s: Snapshot)
      ensures s == Exported(tables)
    {
      hide OrderBy, Gather, Select, ExportApp, Limited, MembersOf;
      var users := Limited(OrderBy(tables.users, UserLe));
      var groups := Limited(OrderBy(tables.groups, GroupLe));
      var members := ListMembers(groups);
      var listed := Limited(OrderBy(tables.apps, AppLe));
      var apps: seq<AppExport> := [];
      for a := 0 to |listed|
        invariant apps == ExportApps(tables, listed)[..a]
      {
        apps := apps + [ExportApp(tables, listed[a])];
      }
      s := Snapshot(users, groups, members, apps);
    }

    method ListMembers(groups: seq<Group>) returns (members: seq<Child<string>>)
      ensures members == Gather(groups, GroupId, MembersOf(tables))
    {
      hide OrderBy, Joined;
      members := [];
      for g := 0 to |groups|
        invariant members == Gather(groups[..g], GroupId, MembersOf(tables))
      {
        var rows := Joined(OrderBy(tables.users, UserLe), groups[g].id, tables.members);
        ghost var before, own := members, Own(groups[g].id, rows);
        for m := 0 to |rows|
          invariant members == before + own[..m]
        {
          members := members + [Child(groups[g].id, rows[m])];
        }
        assert own[..|rows|] == own;
        ghost var next := groups[..g + 1];
        assert next[..|next| - 1] == groups[..g] && next[|next| - 1] == groups[g];
      }
      assert groups[..|groups|] == groups;
    }

    // All or nothing: the snapshot's tables when they meet every constraint,
    // otherwise everything as it was.
    method ImportDirectory(s: Snapshot, d: Defaults) returns (ok: bool)
      modifies this
      ensures ok <==> Importable(s, d, tenants)
      ensures ok ==> tables == Loaded(s, d) && grants == NO_GRANTS
      ensures ok ==> Stored(tables, s, d.tenant, d.now)
      ensures !ok ==> tables == old(tables) && grants == old(grants)
    {
      var savedTables, savedGrants := tables, grants;
      grants, tables := NO_GRANTS, NO_ROWS;
      ok := InsertUsers(s.users, d);
      if ok {
        ok := InsertGroups(s.groups, d);
      }
      if ok {
        ok := InsertMembers(s.members);
        EdgesAll(s.members, tables.groups, tables.users);
        DedupSame(s.members);
      }
      if ok {
        ok := InsertApps(s.apps, d);
        LoadedOwned(s.apps, d);
      }
      if !ok {
        tables, grants := savedTables, savedGrants;
      } else {
        LoadedIsStored(s, d, tenants);
      }
    }

    method InsertUsers(users: seq<User>, d: Defaults) returns (ok: bool)
      requires tables.users == []
      modifies this`tables
      ensures ok <==> UsersOk(Map(users, d.FixUser), tenants)
      ensures ok ==> tables == old(tables).(users := Map(users, d.FixUser))
    {
      ghost var all := Map(users, d.FixUser);
      for i := 0 to |users|
        invariant tables == old(tables).(users := all[..i])
        invariant UsersOk(all[..i], tenants)
      {
        var u := d.FixUser(users[i]);
        ghost var next := all[..i + 1];
        assert next == all[..i] + [u] && all[i] == u;
        DistinctExtends(all[..i], u, UserId);
        DistinctExtends(all[..i], u, UserName);
        if u.tenant !in tenants || !Absent(tables.users, UserId, u.id) || !Absent(tables.users, UserName, u.upn) {
          assert all == next + all[i + 1..];
          if UsersOk(all, tenants) {
            DistinctPrefix(next, all[i + 1..], UserId);
            DistinctPrefix(next, all[i + 1..], UserName);
          }
          return false;
        }
        tables := tables.(users := tables.users + [u]);
      }
      assert all[..|users|] == all;
      ok := true;
    }

    method InsertGroups(groups: seq<Group>, d: Defaults) returns (ok: bool)
      requires tables.groups == []
      modifies this`tables
      ensures ok <==> GroupsOk(Map(groups, d.FixGroup), tenants)
      ensures ok ==> tables == old(tables).(groups := Map(groups, d.FixGroup))
    {
      ghost var all := Map(groups, d.FixGroup);
      for i := 0 to |groups|
        invariant tables == old(tables).(groups := all[..i])
        invariant GroupsOk(all[..i], tenants)
      {
        var g := d.FixGroup(groups[i]);
        ghost var next := all[..i + 1];
        assert next == all[..i] + [g] && all[i] == g;
        DistinctExtends(all[..i], g, GroupId);
        if g.tenant !in tenants || !Absent(tables.groups, GroupId, g.id) {
          assert all == next + all[i + 1..];
          if GroupsOk(all, tenants) {
            DistinctPrefix(next, all[i + 1..], GroupId);
          }
          return false;
        }
        tables := tables.(groups := tables.groups + [g]);
      }
      assert all[..|groups|] == all;
      ok := true;
    }

    method InsertMembers(members: seq<Child<string>>) returns (ok: bool)
      requires tables.members == []
      modifies this`tables
      ensures ok <==> EdgesOk(members, old(tables).groups, old(tables).users)
      ensures ok ==> tables == old(tables).(members := Dedup(members))
      ensures tables.groups == old(tables).groups && tables.users == old(tables).users
    {
      for i := 0 to |members|
        invariant tables == old(tables).(members := Dedup(members[..i]))
        invariant EdgesOk(members[..i], tables.groups, tables.users)
      {
        assert members[..i + 1][..i] == members[..i];
        if !EdgeOk(members[i], tables.groups, tables.users) {
          return false;
        }
        if members[i] !in tables.members {
          tables := tables.(members := tables.members + [members[i]]);
        }
      }
      assert members[..|members|] == members;
      ok := true;
    }

    method InsertApps(apps: seq<AppExport>, d: Defaults) returns (ok: bool)
      requires tables.apps == [] && tables.redirects == [] && tables.secrets == []
      requires tables.scopes == [] && tables.roles == []
      modifies this`tables
      ensures ok <==> AppTablesOk(WithApps(old(tables), apps, d), tenants)
      ensures ok ==> tables == WithApps(old(tables), apps, d)
    {
      hide AppTablesOk;
      NothingToClash(tables, tenants);
      for i := 0 to |apps|
        invariant tables == WithApps(old(tables), apps[..i], d)
        invariant AppTablesOk(tables, tenants)
      {
        ghost var next := apps[..i + 1];
        assert next[..|next| - 1] == apps[..i] && next[|next| - 1] == apps[i];
        WithOneMore(old(tables), next, d);
        AppPrefix(old(tables), next, apps[i + 1..], d, tenants);
        assert apps == next + apps[i + 1..];
        ok := InsertApp(apps[i], d);
        if !ok {
          return;
        }
      }
      assert apps[..|apps|] == apps;
      ok := true;
    }

    // One registration and its four kinds of rows.
    method InsertApp(ax: AppExport, d: Defaults) returns (ok: bool)
      requires AppTablesOk(tables, tenants)
      modifies this`tables
      ensures ok <==> AppTablesOk(PlusApp(old(tables), ax, d), tenants)
      ensures ok ==> tables == PlusApp(old(tables), ax, d)
    {
      hide Keyed;
      var a, id := d.FixApp(ax.app), ax.app.id;
      DistinctExtends(tables.apps, a, AppId);
      if a.tenant !in tenants || !Absent(tables.apps, AppId, id) {
        assert (tables.apps + [a])[|tables.apps|] == a;
        return false;
      }
      tables := tables.(apps := tables.apps + [a]);
      var unique, redirects := InsertOwned(tables.redirects, id, RedirectsOf(ax), UriKey, UriKey);
      if !unique {
        return false;
      }
      tables := tables.(redirects := redirects);
      var secrets;
      unique, secrets := InsertOwned(tables.secrets, id, Map(ax.secrets, d.FixSecret), SecretKey, SecretKey);
      if !unique {
        return false;
      }
      tables := tables.(secrets := secrets);
      var scopes;
      unique, scopes := InsertOwned(tables.scopes, id, ax.scopes, ScopeKey, ScopeValue);
      if !unique {
        return false;
      }
      tables := tables.(scopes := scopes);
      var roles;
      ok, roles := InsertOwned(tables.roles, id, RolesOf(ax), RoleKey, RoleValue);
      tables := tables.(roles := roles);
    }
  }

  lemma WithOneMore(t: Tables, apps: seq<AppExport>, d: Defaults)
    requires apps != []
    ensures WithApps(t, apps, d) == PlusApp(WithApps(t, apps[..|apps| - 1], d), apps[|apps| - 1], d)
  {
  }

  lemma NothingToClash(t: Tables, tenants: set<string>)
    requires t.apps == [] && t.redirects == [] && t.secrets == [] && t.scopes == [] && t.roles == []
    ensures AppTablesOk(t, tenants)
  {
  }

  lemma KeyedPrefix<T, K(!new)>(a: seq<T>, all: seq<T>, key: T -> K, other: T -> K)
    requires a <= all && Keyed(all, key, other)
    ensures Keyed(a, key, other)
  {
    assert all == a + all[|a|..];
    DistinctPrefix(a, all[|a|..], key);
    DistinctPrefix(a, all[|a|..], other);
  }

  lemma KeyedExtends<T, K(!new)>(s: seq<T>, x: T, key: T -> K, other: T -> K)
    requires Keyed(s, key, other)
    ensures Keyed(s + [x], key, other) <==> Absent(s, key, key(x)) && Absent(s, other, other(x))
  {
    DistinctExtends(s, x, key);
    DistinctExtends(s, x, other);
    hide Distinct, Absent;
  }

  // Adds one app's rows to a table with two unique keys, stopping at the first
  // row whose key is taken.
  method InsertOwned<R, K(!new, ==)>(table: seq<Child<R>>, owner: string, rows: seq<R>,
                                     key: Child<R> -> K, other: Child<R> -> K)
    returns (ok: bool, r: seq<Child<R>>)
    requires Keyed(table, key, other)
    ensures ok <==> Keyed(table + Own(owner, rows), key, other)
    ensures ok ==> r == table + Own(owner, rows)
  {
    hide Keyed, Absent;
    ghost var all := table + Own(owner, rows);
    r := table;
    for i := 0 to |rows|
      invariant r == all[..|table| + i]
      invariant Keyed(r, key, other)
    {
      var row := Child(owner, rows[i]);
      ghost var next := all[..|table| + i + 1];
      assert next == r + [row];
      KeyedExtends(r, row, key, other);
      if !Absent(r, key, key(row)) || !Absent(r, other, other(row)) {
        if Keyed(all, key, other) {
          KeyedPrefix(next, all, key, other);
        }
        return false, r;
      }
      r := r + [row];
    }
    assert all[..|table| + |rows|] == all;
    ok := true;
  }

  function WithApps(t: Tables, apps: seq<AppExport>, d: Defaults): Tables {
    t.(apps := Map(apps, AppOf(d)), redirects := Gather(apps, ExportId, RedirectsOf),
       secrets := Gather(apps, ExportId, SecretsOf(d)), scopes := Gather(apps, ExportId, ScopesOf),
       roles := Gather(apps, ExportId, RolesOf))
  }

  // The part of Consistent that the app tables decide on their own.
  ghost predicate AppTablesOk(t: Tables, tenants: set<string>) {
    && AppsOk(t.apps, tenants)
    && Keyed(t.redirects, UriKey, UriKey)
    && Keyed(t.secrets, SecretKey, SecretKey)
    && Keyed(t.scopes, ScopeKey, ScopeValue)
    && Keyed(t.roles, RoleKey, RoleValue)
  }

  lemma AppPrefix(t: Tables, a: seq<AppExport>, b: seq<AppExport>, d: Defaults, tenants: set<string>)
    ensures AppTablesOk(WithApps(t, a + b, d), tenants) ==> AppTablesOk(WithApps(t, a, d), tenants)
  {
    hide Gather, Keyed, Distinct;
    var part, whole := WithApps(t, a, d), WithApps(t, a + b, d);
    GatherPrefix(a, b, ExportId, RedirectsOf);
    GatherPrefix(a, b, ExportId, SecretsOf(d));
    GatherPrefix(a, b, ExportId, ScopesOf);
    GatherPrefix(a, b, ExportId, RolesOf);
    if AppTablesOk(whole, tenants) {
      assert whole.apps == part.apps + whole.apps[|part.apps|..];
      DistinctPrefix(part.apps, whole.apps[|part.apps|..], AppId);
      assert forall i :: 0 <= i < |part.apps| ==> part.apps[i] == whole.apps[i];
      KeyedPrefix(part.redirects, whole.redirects, UriKey, UriKey);
      KeyedPrefix(part.secrets, whole.secrets, SecretKey, SecretKey);
      KeyedPrefix(part.scopes, whole.scopes, ScopeKey, ScopeValue);
      KeyedPrefix(part.roles, whole.roles, RoleKey, RoleValue);
    }
  }

  lemma OwnedByApps<R>(apps: seq<AppExport>, d: Defaults, rows: AppExport -> seq<R>)
    ensures OwnedOk(Gather(apps, ExportId, rows), Map(apps, AppOf(d)))
  {
    var table, parents := Gather(apps, ExportId, rows), Map(apps, AppOf(d));
    forall i | 0 <= i < |table|
      ensures Names(parents, AppId, table[i].owner)
    {
      var j := GatherOwner(apps, ExportId, rows, table[i]);
      assert AppId(parents[j]) == table[i].owner;
    }
  }

  lemma LoadedOwned(apps: seq<AppExport>, d: Defaults)
    ensures OwnedOk(Gather(apps, ExportId, RedirectsOf), Map(apps, AppOf(d)))
    ensures OwnedOk(Gather(apps, ExportId, SecretsOf(d)), Map(apps, AppOf(d)))
    ensures OwnedOk(Gather(apps, ExportId, ScopesOf), Map(apps, AppOf(d)))
    ensures OwnedOk(Gather(apps, ExportId, RolesOf), Map(apps, AppOf(d)))
  {
    OwnedByApps(apps, d, RedirectsOf);
    OwnedByApps(apps, d, SecretsOf(d));
    OwnedByApps(apps, d, ScopesOf);
    OwnedByApps(apps, d, RolesOf);
  }
}
