/** Outbound SCIM provisioning: one sync cycle against a remote target that may
    refuse requests, and what it leaves on a target that refuses none. */
module Provisioning {
  import opened Strings

  datatype User = User(id: string, upn: string, displayName: string, givenName: string, surname: string,
                       mail: string, enabled: bool, updatedAt: int)

  // The members are the user principal names ListGroupMembers reads.
  datatype Group = Group(id: string, displayName: string, members: Listing<string>)

  datatype Listing<+T> = Rows(rows: seq<T>) | Unreadable

  datatype Directory = Directory(users: Listing<User>, groups: Listing<Group>, now: int)

  // ---- The target: resources in creation order, identified by position ----

  datatype RemoteUser = RemoteUser(externalId: string, userName: string, displayName: string, active: bool,
                                   givenName: string, familyName: string, mail: string)

  datatype RemoteGroup = RemoteGroup(externalId: string, displayName: string, members: seq<nat>)

  datatype Remote = Remote(users: seq<RemoteUser>, groups: seq<RemoteGroup>)

  // The status of the k-th request, for a read and for a write.
  type Replies = (nat, bool) -> int

  predicate OkStatus(status: int) {
    200 <= status < 300
  }

  ghost predicate AlwaysSucceeds(replies: Replies) {
    forall k: nat :: replies(k, true) == 200 && OkStatus(replies(k, false))
  }

  function FindUser(users: seq<RemoteUser>, upn: string): (r: Option<nat>)
    ensures r.Some? ==> r.value < |users| && users[r.value].userName == upn
                        && forall j :: 0 <= j < r.value ==> users[j].userName != upn
    ensures r.None? ==> forall j :: 0 <= j < |users| ==> users[j].userName != upn
  {
    if users == [] then None
    else if users[0].userName == upn then Some(0)
    else
      var r := FindUser(users[1..], upn);
      if r.None? then None else Some(r.value + 1)
  }

  function FindGroup(groups: seq<RemoteGroup>, name: string): (r: Option<nat>)
    ensures r.Some? ==> r.value < |groups| && groups[r.value].displayName == name
                        && forall j :: 0 <= j < r.value ==> groups[j].displayName != name
    ensures r.None? ==> forall j :: 0 <= j < |groups| ==> groups[j].displayName != name
  {
    if groups == [] then None
    else if groups[0].displayName == name then Some(0)
    else
      var r := FindGroup(groups[1..], name);
      if r.None? then None else Some(r.value + 1)
  }

  // ---- Payloads ----

  datatype UserWrite =
    | CreateUser(resource: RemoteUser)
    | Deactivate(at: nat)
    | UpdateUser(at: nat, active: bool, displayName: string)

  datatype GroupWrite =
    | CreateGroup(resource: RemoteGroup)
    | ReplaceMembers(at: nat, members: seq<nat>)

  function OutboundUser(u: User): RemoteUser {
    RemoteUser(u.id, u.upn, u.displayName, u.enabled, u.givenName, u.surname, u.mail)
  }

  function ApplyUser(users: seq<RemoteUser>, write: UserWrite): seq<RemoteUser> {
    match write
    case CreateUser(resource) => users + [resource]
    case Deactivate(at) => if at < |users| then users[at := users[at].(active := false)] else users
    case UpdateUser(at, active, displayName) =>
      if at < |users| then users[at := users[at].(active := active, displayName := displayName)] else users
  }

  function ApplyGroup(groups: seq<RemoteGroup>, write: GroupWrite): seq<RemoteGroup> {
    match write
    case CreateGroup(resource) => groups + [resource]
    case ReplaceMembers(at, members) => if at < |groups| then groups[at := groups[at].(members := members)] else groups
  }

  // ---- What the cycle does, request by request ----

  // The collection is the first segment of the request's path.
  datatype LogEntry = LogEntry(collection: string, subject: string, action: string, status: int)

  datatype World = World(remote: Remote, served: nat, trace: seq<LogEntry>)

  datatype SyncResult = SyncResult(created: nat, updated: nat, deprovisioned: nat, skipped: nat, failed: nat,
                                   groupsCreated: nat, groupsUpdated: nat)
  {
    function Total(): nat {
      created + updated + deprovisioned + skipped + failed + groupsCreated + groupsUpdated
    }
  }

  const NOTHING := SyncResult(0, 0, 0, 0, 0, 0, 0)

  function Serve(
      replies: Replies, w: World, read: bool, collection: string, subject: string, action: string): World
  {
    w.(served := w.served + 1, trace := w.trace + [LogEntry(collection, subject, action, replies(w.served, read))])
  }

  function ProbedUser(replies: Replies, w: World, upn: string): Option<nat> {
    if replies(w.served, true) == 200 then FindUser(w.remote.users, upn) else None
  }

  function ProbedGroup(replies: Replies, w: World, name: string): Option<nat> {
    if replies(w.served, true) == 200 then FindGroup(w.remote.groups, name) else None
  }

  function SendUser(replies: Replies, w: World, write: UserWrite, subject: string, action: string): World {
    var w' := Serve(replies, w, false, "Users", subject, action);
    if OkStatus(replies(w.served, false)) then w'.(remote := w.remote.(users := ApplyUser(w.remote.users, write)))
    else w'
  }

  function SendGroup(replies: Replies, w: World, write: GroupWrite, subject: string, action: string): World {
    var w' := Serve(replies, w, false, "Groups", subject, action);
    if OkStatus(replies(w.served, false)) then w'.(remote := w.remote.(groups := ApplyGroup(w.remote.groups, write)))
    else w'
  }

  function Tally(res: SyncResult, action: string, status: int): SyncResult {
    if !OkStatus(status) then res.(failed := res.failed + 1)
    else if action == "create" then res.(created := res.created + 1)
    else if action == "update" then res.(updated := res.updated + 1)
    else if action == "deprovision" then res.(deprovisioned := res.deprovisioned + 1)
    else res
  }

  // An incremental cycle passes over rows stamped strictly before the watermark.
  predicate Skips(incremental: bool, stamp: int, watermark: int) {
    incremental && stamp < watermark
  }

  function UserStep(replies: Replies, w: World, u: User, res: SyncResult): (World, SyncResult) {
    var existing := ProbedUser(replies, w, u.upn);
    var w' := Serve(replies, w, true, "Users", u.upn, "probe");
    var status := replies(w'.served, false);
    if existing.None? && u.enabled then
      (SendUser(replies, w', CreateUser(OutboundUser(u)), u.upn, "create"), Tally(res, "create", status))
    else if existing.Some? && !u.enabled then
      (SendUser(replies, w', Deactivate(existing.value), u.upn, "deprovision"), Tally(res, "deprovision", status))
    else if existing.Some? then
      (SendUser(replies, w', UpdateUser(existing.value, u.enabled, u.displayName), u.upn, "update"),
       Tally(res, "update", status))
    else
      (w', res.(skipped := res.skipped + 1))
  }

  function UsersLoop(
      replies: Replies, w: World, users: seq<User>, incremental: bool, watermark: int, res: SyncResult)
    : (World, SyncResult)
  {
    if users == [] then (w, res)
    else
      var n := |users| - 1;
      var (w', res') := UsersLoop(replies, w, users[..n], incremental, watermark, res);
      if Skips(incremental, users[n].updatedAt, watermark) then (w', res'.(skipped := res'.skipped + 1))
      else UserStep(replies, w', users[n], res')
  }

  function Correlate(replies: Replies, w: World, members: seq<string>): (World, seq<nat>) {
    if members == [] then (w, [])
    else
      var n := |members| - 1;
      var (w', ids) := Correlate(replies, w, members[..n]);
      var found := ProbedUser(replies, w', members[n]);
      (Serve(replies, w', true, "Users", members[n], "probe"), if found.Some? then ids + [found.value] else ids)
  }

  function GroupSend(replies: Replies, w: World, g: Group, ids: seq<nat>, res: SyncResult): (World, SyncResult) {
    var existing := ProbedGroup(replies, w, g.displayName);
    var w' := Serve(replies, w, true, "Groups", g.displayName, "probe");
    var ok := OkStatus(replies(w'.served, false));
    if existing.None? then
      (SendGroup(replies, w', CreateGroup(RemoteGroup(g.id, g.displayName, ids)), g.displayName, "create"),
       if ok then res.(groupsCreated := res.groupsCreated + 1) else res.(failed := res.failed + 1))
    else
      (SendGroup(replies, w', ReplaceMembers(existing.value, ids), g.displayName, "update"),
       if ok then res.(groupsUpdated := res.groupsUpdated + 1) else res.(failed := res.failed + 1))
  }

  function GroupStep(replies: Replies, w: World, g: Group, res: SyncResult): (World, SyncResult) {
    var (w', ids) := if g.members.Rows? then Correlate(replies, w, g.members.rows) else (w, []);
    GroupSend(replies, w', g, ids, res)
  }

  function GroupsLoop(replies: Replies, w: World, groups: seq<Group>, res: SyncResult): (World, SyncResult) {
    if groups == [] then (w, res)
    else
      var n := |groups| - 1;
      var (w', res') := GroupsLoop(replies, w, groups[..n], res);
      GroupStep(replies, w', groups[n], res')
  }

  function Cycle(replies: Replies, w: World, dir: Directory, incremental: bool, watermark: int): (World, SyncResult)
    requires dir.users.Rows?
  {
    var (w', res) := UsersLoop(replies, w, dir.users.rows, incremental, watermark, NOTHING);
    if dir.groups.Rows? then GroupsLoop(replies, w', dir.groups.rows, res) else (w', res)
  }

  // The rows a cycle does not pass over.
  function Due(us: seq<User>, incremental: bool, watermark: int): seq<User> {
    if us == [] then []
    else
      var n := |us| - 1;
      Due(us[..n], incremental, watermark) + if Skips(incremental, us[n].updatedAt, watermark) then [] else [us[n]]
  }

  lemma {:induction false} DueRows(us: seq<User>, incremental: bool, watermark: int)
    ensures forall u :: u in Due(us, incremental, watermark) <==>
              u in us && !Skips(incremental, u.updatedAt, watermark)
  {
    if us != [] {
      DueRows(us[..|us| - 1], incremental, watermark);
      assert us == us[..|us| - 1] + [us[|us| - 1]];
    }
  }

  // Whatever the target answers, a cycle sends for the rows it does not pass
  // over what a full cycle over those rows alone would send.
  lemma {:induction false} OnlyDueRowsAreSent(
      replies: Replies, w: World, us: seq<User>, incremental: bool, watermark: int, res: SyncResult, full: SyncResult)
    ensures UsersLoop(replies, w, us, incremental, watermark, res).0
            == UsersLoop(replies, w, Due(us, incremental, watermark), false, watermark, full).0
  {
    hide UserStep;
    if us != [] {
      var n := |us| - 1;
      var due := Due(us[..n], incremental, watermark);
      OnlyDueRowsAreSent(replies, w, us[..n], incremental, watermark, res, full);
      if !Skips(incremental, us[n].updatedAt, watermark) {
        var more := due + [us[n]];
        assert Due(us, incremental, watermark) == more;
        assert more[..|more| - 1] == due;
        var (w1, res1) := UsersLoop(replies, w, us[..n], incremental, watermark, res);
        var (w2, res2) := UsersLoop(replies, w, due, false, watermark, full);
        assert UsersLoop(replies, w, more, false, watermark, full) == UserStep(replies, w2, us[n], res2);
        SameWorld(replies, w1, us[n], res1, res2);
      } else {
        assert Due(us, incremental, watermark) == due;
      }
    }
  }

  lemma SameWorld(replies: Replies, w: World, u: User, res: SyncResult, other: SyncResult)
    ensures UserStep(replies, w, u, res).0 == UserStep(replies, w, u, other).0
  {}

  // ---- The provisioner ----

  const LOG_CAP := 500

  function Newest<T>(s: seq<T>, cap: nat): (r: seq<T>)
    ensures |r| == if |s| <= cap then |s| else cap
    ensures forall i :: 0 <= i < |r| ==> r[i] == s[|s| - |r| + i]
  {
    if |s| > cap then s[|s| - cap..] else s
  }

  class ScimTarget {
    const replies: Replies
    var served: nat
    var remote: Remote

    constructor (replies: Replies, remote: Remote)
      ensures this.replies == replies && this.remote == remote && served == 0
    {
      this.replies := replies;
      this.remote := remote;
      served := 0;
    }
  }

  class Provisioner {
    var target: ScimTarget?
    var log: seq<LogEntry>
    var watermark: int
    // Every request so far.
    ghost var trace: seq<LogEntry>

    constructor ()
      ensures Valid() && target == null && watermark == 0 && trace == []
    {
      target := null;
      log := [];
      watermark := 0;
      trace := [];
    }

    // The provisioning trail holds the newest requests and nothing else.
    ghost predicate Valid()
      reads this
    {
      log == Newest(trace, LOG_CAP)
    }

    ghost function Snapshot(t: ScimTarget): World
      reads this, t
    {
      World(t.remote, t.served, trace)
    }

    method SetTarget(t: ScimTarget)
      requires Valid()
      modifies this`target
      ensures target == t && Valid()
    {
      target := t;
    }

    method AppendLog(e: LogEntry)
      requires Valid()
      modifies this`log, this`trace
      ensures Valid() && trace == old(trace) + [e] && |log| <= 500
    {
      log := log + [e];
      if |log| > LOG_CAP {
        log := log[|log| - LOG_CAP..];
      }
      trace := trace + [e];
    }

    method Request(t: ScimTarget, read: bool, collection: string, subject: string, action: string)
      returns (status: int)
      requires Valid()
      modifies this`log, this`trace, t`served
      ensures Valid() && status == t.replies(old(t.served), read)
      ensures Snapshot(t) == Serve(t.replies, old(Snapshot(t)), read, collection, subject, action)
    {
      status := t.replies(t.served, read);
      t.served := t.served + 1;
      AppendLog(LogEntry(collection, subject, action, status));
    }

    method ProbeUser(t: ScimTarget, upn: string) returns (id: Option<nat>)
      requires Valid()
      modifies this`log, this`trace, t`served
      ensures Valid() && id == ProbedUser(t.replies, old(Snapshot(t)), upn)
      ensures Snapshot(t) == Serve(t.replies, old(Snapshot(t)), true, "Users", upn, "probe")
    {
      var status := Request(t, true, "Users", upn, "probe");
      id := if status == 200 then FindUser(t.remote.users, upn) else None;
    }

    method ProbeGroup(t: ScimTarget, name: string) returns (id: Option<nat>)
      requires Valid()
      modifies this`log, this`trace, t`served
      ensures Valid() && id == ProbedGroup(t.replies, old(Snapshot(t)), name)
      ensures Snapshot(t) == Serve(t.replies, old(Snapshot(t)), true, "Groups", name, "probe")
    {
      var status := Request(t, true, "Groups", name, "probe");
      id := if status == 200 then FindGroup(t.remote.groups, name) else None;
    }

    method SendUserWrite(t: ScimTarget, write: UserWrite, subject: string, action: string) returns (status: int)
      requires Valid()
      modifies this`log, this`trace, t
      ensures Valid() && status == t.replies(old(t.served), false)
      ensures Snapshot(t) == SendUser(t.replies, old(Snapshot(t)), write, subject, action)
    {
      status := Request(t, false, "Users", subject, action);
      if OkStatus(status) {
        t.remote := t.remote.(users := ApplyUser(t.remote.users, write));
      }
    }

    method SendGroupWrite(t: ScimTarget, write: GroupWrite, subject: string, action: string) returns (status: int)
      requires Valid()
      modifies this`log, this`trace, t
      ensures Valid() && status == t.replies(old(t.served), false)
      ensures Snapshot(t) == SendGroup(t.replies, old(Snapshot(t)), write, subject, action)
    {
      status := Request(t, false, "Groups", subject, action);
      if OkStatus(status) {
        t.remote := t.remote.(groups := ApplyGroup(t.remote.groups, write));
      }
    }

    method ReconcileUser(t: ScimTarget, u: User, res: SyncResult) returns (res': SyncResult)
      requires Valid()
      modifies this`log, this`trace, t
      ensures Valid()
      ensures (Snapshot(t), res') == UserStep(t.replies, old(Snapshot(t)), u, res)
    {
      var existing := ProbeUser(t, u.upn);
      if existing.None? && u.enabled {
        var status := SendUserWrite(t, CreateUser(OutboundUser(u)), u.upn, "create");
        res' := Tally(res, "create", status);
      } else if existing.Some? && !u.enabled {
        var status := SendUserWrite(t, Deactivate(existing.value), u.upn, "deprovision");
        res' := Tally(res, "deprovision", status);
      } else if existing.Some? {
        var status := SendUserWrite(t, UpdateUser(existing.value, u.enabled, u.displayName), u.upn, "update");
        res' := Tally(res, "update", status);
      } else {
        res' := res.(skipped := res.skipped + 1);
      }
    }

    method CorrelatedMembers(t: ScimTarget, members: Listing<string>) returns (ids: seq<nat>)
      requires Valid()
      modifies this`log, this`trace, t`served
      ensures Valid()
      ensures (Snapshot(t), ids) == if members.Rows? then Correlate(t.replies, old(Snapshot(t)), members.rows)
                                    else (old(Snapshot(t)), [])
    {
      ids := [];
      if members.Unreadable? {
        return;
      }
      ghost var start := Snapshot(t);
      for i := 0 to |members.rows|
        invariant Valid()
        invariant (Snapshot(t), ids) == Correlate(t.replies, start, members.rows[..i])
      {
        assert members.rows[..i + 1][..i] == members.rows[..i];
        var id := ProbeUser(t, members.rows[i]);
        if id.Some? {
          ids := ids + [id.value];
        }
      }
      assert members.rows[..|members.rows|] == members.rows;
    }

    method SyncGroups(t: ScimTarget, groups: Listing<Group>, res: SyncResult) returns (res': SyncResult)
      requires Valid()
      modifies this`log, this`trace, t
      ensures Valid()
      ensures (Snapshot(t), res') == if groups.Rows? then GroupsLoop(t.replies, old(Snapshot(t)), groups.rows, res)
                                     else (old(Snapshot(t)), res)
    {
      res' := res;
      if groups.Unreadable? {
        return;
      }
      ghost var start := Snapshot(t);
      for i := 0 to |groups.rows|
        invariant Valid()
        invariant (Snapshot(t), res') == GroupsLoop(t.replies, start, groups.rows[..i], res)
      {
        assert groups.rows[..i + 1][..i] == groups.rows[..i];
        var g := groups.rows[i];
        var members := CorrelatedMembers(t, g.members);
        var existing := ProbeGroup(t, g.displayName);
        if existing.None? {
          var group := RemoteGroup(g.id, g.displayName, members);
          var status := SendGroupWrite(t, CreateGroup(group), g.displayName, "create");
          res' := if OkStatus(status) then res'.(groupsCreated := res'.groupsCreated + 1)
                  else res'.(failed := res'.failed + 1);
        } else {
          var status := SendGroupWrite(t, ReplaceMembers(existing.value, members), g.displayName, "update");
          res' := if OkStatus(status) then res'.(groupsUpdated := res'.groupsUpdated + 1)
                  else res'.(failed := res'.failed + 1);
        }
      }
      assert groups.rows[..|groups.rows|] == groups.rows;
    }

    method SyncUsers(t: ScimTarget, users: seq<User>, incremental: bool, wm: int) returns (res: SyncResult)
      requires Valid()
      modifies this`log, this`trace, t
      ensures Valid()
      ensures (Snapshot(t), res) == UsersLoop(t.replies, old(Snapshot(t)), users, incremental, wm, NOTHING)
    {
      res := NOTHING;
      ghost var start := Snapshot(t);
      for i := 0 to |users|
        invariant Valid()
        invariant (Snapshot(t), res) == UsersLoop(t.replies, start, users[..i], incremental, wm, NOTHING)
      {
        assert users[..i + 1][..i] == users[..i];
        if incremental && users[i].updatedAt < wm {
          res := res.(skipped := res.skipped + 1);
          continue;
        }
        res := ReconcileUser(t, users[i], res);
      }
      assert users[..|users|] == users;
    }

    // A cycle on a directory nobody writes to meanwhile. It moves the watermark
    // to the moment it started, unless it has no target or no user list.
    method Sync(dir: Directory, incremental: bool) returns (res: Option<SyncResult>)
      requires Valid()
      modifies this`log, this`trace, this`watermark, target
      ensures Valid()
      ensures res.None? <==> old(target) == null || dir.users.Unreadable?
      ensures res.None? ==> watermark == old(watermark)
      ensures res.Some? ==> watermark == dir.now
                            && (Snapshot(target), res.value)
                               == Cycle(target.replies, old(Snapshot(target)), dir, incremental, old(watermark))
    {
      if target == null {
        return None;
      }
      var t: ScimTarget := target;
      var wm := watermark;
      var syncStart := dir.now;
      if dir.users.Unreadable? {
        return None;
      }
      var tally := SyncUsers(t, dir.users.rows, incremental, wm);
      tally := SyncGroups(t, dir.groups, tally);
      watermark := syncStart;
      res := Some(tally);
    }
  }
}
