/** What a provisioning cycle reports, and what it leaves on the target, when the
    target may refuse or fail any request: told from the requests themselves and
    the statuses they were answered with. */
module SyncOutcomes {
  import opened Strings
  import opened Provisioning

  predicate Accepted(e: LogEntry) {
    200 <= e.status <= 299
  }

  predicate IsWrite(e: LogEntry) {
    e.action != "probe"
  }

  // How many requests of that kind the target accepted.
  function AcceptedOf(sent: seq<LogEntry>, collection: string, action: string): nat {
    if sent == [] then 0
    else
      var e := sent[|sent| - 1];
      AcceptedOf(sent[..|sent| - 1], collection, action)
        + if e.collection == collection && e.action == action && Accepted(e) then 1 else 0
  }

  // How many writes it did not.
  function Refusals(sent: seq<LogEntry>): nat {
    if sent == [] then 0
    else
      var e := sent[|sent| - 1];
      Refusals(sent[..|sent| - 1]) + if IsWrite(e) && !Accepted(e) then 1 else 0
  }

  // The requests between two moments, each with the status the target gave it.
  ghost predicate Sends(replies: Replies, w: World, after: World, sent: seq<LogEntry>) {
    && after.trace == w.trace + sent && after.served == w.served + |sent|
    && forall i :: 0 <= i < |sent| ==> sent[i].status == replies(w.served + i, !IsWrite(sent[i]))
  }

  // Every counter is a number of requests.
  ghost predicate Reports(res: SyncResult, after: SyncResult, sent: seq<LogEntry>) {
    && after.created == res.created + AcceptedOf(sent, "Users", "create")
    && after.updated == res.updated + AcceptedOf(sent, "Users", "update")
    && after.deprovisioned == res.deprovisioned + AcceptedOf(sent, "Users", "deprovision")
    && after.groupsCreated == res.groupsCreated + AcceptedOf(sent, "Groups", "create")
    && after.groupsUpdated == res.groupsUpdated + AcceptedOf(sent, "Groups", "update")
    && after.failed == res.failed + Refusals(sent)
  }

  ghost predicate AcceptedFor(sent: seq<LogEntry>, collection: string, subject: string) {
    exists i ::
      && 0 <= i < |sent| && sent[i].collection == collection && sent[i].subject == subject
      && IsWrite(sent[i]) && Accepted(sent[i])
  }

  // The target's resources differ only where it accepted a write about them, and
  // there are as many new ones as it accepted creations.
  ghost predicate ChangedAsAccepted(before: Remote, after: Remote, sent: seq<LogEntry>) {
    && |after.users| == |before.users| + AcceptedOf(sent, "Users", "create")
    && (forall k :: 0 <= k < |before.users| ==> after.users[k].userName == before.users[k].userName)
    && (forall k :: 0 <= k < |after.users| && (k < |before.users| ==> after.users[k] != before.users[k])
          ==> AcceptedFor(sent, "Users", after.users[k].userName))
    && |after.groups| == |before.groups| + AcceptedOf(sent, "Groups", "create")
    && (forall k :: 0 <= k < |before.groups| ==> after.groups[k].displayName == before.groups[k].displayName)
    && (forall k :: 0 <= k < |after.groups| && (k < |before.groups| ==> after.groups[k] != before.groups[k])
          ==> AcceptedFor(sent, "Groups", after.groups[k].displayName))
  }

  lemma {:induction false} CountsAdd(a: seq<LogEntry>, b: seq<LogEntry>, collection: string, action: string)
    ensures AcceptedOf(a + b, collection, action)
            == AcceptedOf(a, collection, action) + AcceptedOf(b, collection, action)
    ensures Refusals(a + b) == Refusals(a) + Refusals(b)
  {
    if b == [] {
      assert a + b == a;
    } else {
      CountsAdd(a, b[..|b| - 1], collection, action);
      assert (a + b)[..|a + b| - 1] == a + b[..|b| - 1];
    }
  }

  lemma AcceptedGrows(a: seq<LogEntry>, b: seq<LogEntry>, collection: string, subject: string)
    ensures AcceptedFor(a + b, collection, subject) <==>
              AcceptedFor(a, collection, subject) || AcceptedFor(b, collection, subject)
  {
    var all := a + b;
    if AcceptedFor(b, collection, subject) {
      var i :| 0 <= i < |b|
               && b[i].collection == collection && b[i].subject == subject && IsWrite(b[i]) && Accepted(b[i]);
      assert all[|a| + i] == b[i];
    }
    if AcceptedFor(a, collection, subject) {
      var i :| 0 <= i < |a|
               && a[i].collection == collection && a[i].subject == subject && IsWrite(a[i]) && Accepted(a[i]);
      assert all[i] == a[i];
    }
  }

  // ---- One after the other ----

  ghost predicate Outcome(
      replies: Replies, w: World, res: SyncResult, after: World, res': SyncResult, sent: seq<LogEntry>)
  {
    && Sends(replies, w, after, sent) && Reports(res, res', sent)
    && ChangedAsAccepted(w.remote, after.remote, sent)
  }

  lemma SendsThen(replies: Replies, w: World, mid: World, after: World, a: seq<LogEntry>, b: seq<LogEntry>)
    requires Sends(replies, w, mid, a) && Sends(replies, mid, after, b)
    ensures Sends(replies, w, after, a + b)
  {
    forall i | 0 <= i < |a + b|
      ensures (a + b)[i].status == replies(w.served + i, !IsWrite((a + b)[i]))
    {
      if i >= |a| {
        assert (a + b)[i] == b[i - |a|];
        assert w.served + i == mid.served + (i - |a|);
      }
    }
  }

  lemma ChangedThen(before: Remote, mid: Remote, after: Remote, a: seq<LogEntry>, b: seq<LogEntry>)
    requires ChangedAsAccepted(before, mid, a) && ChangedAsAccepted(mid, after, b)
    ensures ChangedAsAccepted(before, after, a + b)
  {
    hide AcceptedFor, AcceptedOf;
    CountsAdd(a, b, "Users", "create");
    CountsAdd(a, b, "Groups", "create");
    forall k | 0 <= k < |after.users| && (k < |before.users| ==> after.users[k] != before.users[k])
      ensures AcceptedFor(a + b, "Users", after.users[k].userName)
    {
      AcceptedGrows(a, b, "Users", after.users[k].userName);
    }
    forall k | 0 <= k < |after.groups| && (k < |before.groups| ==> after.groups[k] != before.groups[k])
      ensures AcceptedFor(a + b, "Groups", after.groups[k].displayName)
    {
      AcceptedGrows(a, b, "Groups", after.groups[k].displayName);
    }
  }

  lemma Then(replies: Replies, w: World, res: SyncResult, mid: World, res1: SyncResult, after: World, res2: SyncResult,
             a: seq<LogEntry>, b: seq<LogEntry>)
    requires Outcome(replies, w, res, mid, res1, a) && Outcome(replies, mid, res1, after, res2, b)
    ensures Outcome(replies, w, res, after, res2, a + b)
  {
    hide AcceptedOf, Refusals;
    SendsThen(replies, w, mid, after, a, b);
    ChangedThen(w.remote, mid.remote, after.remote, a, b);
    CountsAdd(a, b, "Users", "create");
    CountsAdd(a, b, "Users", "update");
    CountsAdd(a, b, "Users", "deprovision");
    CountsAdd(a, b, "Groups", "create");
    CountsAdd(a, b, "Groups", "update");
    hide Sends, ChangedAsAccepted;
  }

  lemma Nothing(replies: Replies, w: World, res: SyncResult)
    ensures Outcome(replies, w, res, w, res, [])
  {
    assert w.trace + [] == w.trace;
  }

  // ---- One user ----

  predicate Known(users: seq<RemoteUser>, upn: string) {
    exists k :: 0 <= k < |users| && users[k].userName == upn
  }

  // What is asked of the target for a user: a probe, and a write that depends on
  // whether the probe found an account and whether the user is enabled.
  function UserRequests(replies: Replies, w: World, u: User): seq<LogEntry> {
    var found := replies(w.served, true) == 200 && Known(w.remote.users, u.upn);
    [LogEntry("Users", u.upn, "probe", replies(w.served, true))]
      + if !found && !u.enabled then []
        else [LogEntry("Users", u.upn, if !found then "create" else if u.enabled then "update" else "deprovision",
                       replies(w.served + 1, false))]
  }

  // The account after an accepted write, column by column.
  ghost predicate UserWritten(before: seq<RemoteUser>, after: seq<RemoteUser>, u: User, found: bool) {
    if !found then
      after == before + [RemoteUser(u.id, u.upn, u.displayName, true, u.givenName, u.surname, u.mail)]
    else
      exists k :: 0 <= k < |before| && before[k].userName == u.upn
                  && (forall j :: 0 <= j < k ==> before[j].userName != u.upn)
                  && after == before[k := before[k].(active := u.enabled,
                                                     displayName := if u.enabled then u.displayName
                                                                    else before[k].displayName)]
  }

  lemma OneOrTwo(sent: seq<LogEntry>)
    requires 1 <= |sent| <= 2 && !IsWrite(sent[0])
    ensures forall c, a :: a != "probe" ==>
              AcceptedOf(sent, c, a)
              == if |sent| == 2 && sent[1].collection == c && sent[1].action == a && Accepted(sent[1]) then 1 else 0
    ensures Refusals(sent) == if |sent| == 2 && IsWrite(sent[1]) && !Accepted(sent[1]) then 1 else 0
  {
    assert sent[..1][..0] == [];
    assert sent[..1] == [sent[0]];
    if |sent| == 2 {
      assert sent[..|sent| - 1] == sent[..1];
    }
  }

  lemma UserStepWrites(replies: Replies, w: World, u: User, res: SyncResult)
    ensures var w', sent := UserStep(replies, w, u, res).0, UserRequests(replies, w, u);
            if |sent| == 2 && 200 <= sent[1].status <= 299 then
              && w'.remote.groups == w.remote.groups
              && UserWritten(w.remote.users, w'.remote.users, u,
                             replies(w.served, true) == 200 && Known(w.remote.users, u.upn))
            else w'.remote == w.remote
  {
    var at := FindUser(w.remote.users, u.upn);
    assert at.Some? <==> Known(w.remote.users, u.upn);
    hide FindUser;
  }

  lemma UserStepSends(replies: Replies, w: World, u: User, res: SyncResult)
    ensures Sends(replies, w, UserStep(replies, w, u, res).0, UserRequests(replies, w, u))
  {
    var at := FindUser(w.remote.users, u.upn);
    assert at.Some? <==> Known(w.remote.users, u.upn);
    hide FindUser, Known, Tally, ApplyUser;
    var sent := UserRequests(replies, w, u);
    if |sent| == 2 {
      assert w.trace + [sent[0]] + [sent[1]] == w.trace + sent;
    }
  }

  lemma UserStepReports(replies: Replies, w: World, u: User, res: SyncResult)
    ensures var res', sent := UserStep(replies, w, u, res).1, UserRequests(replies, w, u);
            Reports(res, res', sent) && res'.skipped == res.skipped + if |sent| == 1 then 1 else 0
  {
    var at := FindUser(w.remote.users, u.upn);
    assert at.Some? <==> Known(w.remote.users, u.upn);
    hide FindUser, Known, SendUser, AcceptedOf, Refusals;
    OneOrTwo(UserRequests(replies, w, u));
  }

  // One user: which requests are sent, with what payload, and how each answer is
  // counted.
  lemma UserStepOutcome(replies: Replies, w: World, u: User, res: SyncResult)
    ensures var (w', res') := UserStep(replies, w, u, res);
            var sent := UserRequests(replies, w, u);
            && Outcome(replies, w, res, w', res', sent)
            && (if |sent| == 2 && 200 <= sent[1].status <= 299 then
                  UserWritten(w.remote.users, w'.remote.users, u,
                              replies(w.served, true) == 200 && Known(w.remote.users, u.upn))
                else w'.remote == w.remote)
            && res'.skipped == res.skipped + if |sent| == 1 then 1 else 0
  {
    var w', sent := UserStep(replies, w, u, res).0, UserRequests(replies, w, u);
    UserStepWrites(replies, w, u, res);
    UserStepSends(replies, w, u, res);
    UserStepReports(replies, w, u, res);
    OneOrTwo(sent);
    hide UserStep, Sends, Reports, AcceptedOf;
    assert |sent| == 2 && Accepted(sent[1]) ==> AcceptedFor(sent, "Users", u.upn);
  }

  // ---- One group ----

  // The first account of that name.
  predicate NamedAt(users: seq<RemoteUser>, name: string, k: nat) {
    k < |users| && users[k].userName == name && forall j :: 0 <= j < k ==> users[j].userName != name
  }

  // The ids of the members whose probe was answered 200 and found an account.
  ghost predicate FoundIds(
      replies: Replies, served: nat, users: seq<RemoteUser>, members: seq<string>, ids: seq<nat>)
  {
    forall k: nat :: k in ids <==> exists i :: 0 <= i < |members| && FoundAs(replies, served, users, members, i, k)
  }

  ghost predicate FoundAs(
      replies: Replies, served: nat, users: seq<RemoteUser>, members: seq<string>, i: nat, k: nat)
    requires i < |members|
  {
    replies(served + i, true) == 200 && NamedAt(users, members[i], k)
  }

  function MemberProbes(replies: Replies, served: nat, members: seq<string>): seq<LogEntry> {
    seq(|members|, i requires 0 <= i < |members| => LogEntry("Users", members[i], "probe", replies(served + i, true)))
  }

  function MembersOf(g: Group): seq<string> {
    if g.members.Rows? then g.members.rows else []
  }

  // A probe for the group, and a write that depends on whether it was found.
  function GroupRequests(replies: Replies, w: World, g: Group): seq<LogEntry> {
    var found := replies(w.served, true) == 200 && KnownGroup(w.remote.groups, g.displayName);
    [LogEntry("Groups", g.displayName, "probe", replies(w.served, true)),
     LogEntry("Groups", g.displayName, if found then "update" else "create", replies(w.served + 1, false))]
  }

  predicate KnownGroup(groups: seq<RemoteGroup>, name: string) {
    exists k :: 0 <= k < |groups| && groups[k].displayName == name
  }

  ghost predicate GroupWritten(
      before: seq<RemoteGroup>, after: seq<RemoteGroup>, g: Group, found: bool, ids: seq<nat>)
  {
    if !found then after == before + [RemoteGroup(g.id, g.displayName, ids)]
    else
      exists k :: 0 <= k < |before| && before[k].displayName == g.displayName
                  && (forall j :: 0 <= j < k ==> before[j].displayName != g.displayName)
                  && after == before[k := before[k].(members := ids)]
  }

  lemma FoundNext(replies: Replies, served: nat, users: seq<RemoteUser>, members: seq<string>, ids: seq<nat>)
    requires members != [] && FoundIds(replies, served, users, members[..|members| - 1], ids)
    ensures var n := |members| - 1;
            var at := FindUser(users, members[n]);
            FoundIds(replies, served, users, members,
                     if replies(served + n, true) == 200 && at.Some? then ids + [at.value] else ids)
  {
    var n := |members| - 1;
    var init, at := members[..n], FindUser(users, members[n]);
    var more := if replies(served + n, true) == 200 && at.Some? then ids + [at.value] else ids;
    assert at.Some? ==> NamedAt(users, members[n], at.value);
    hide FindUser;
    forall k: nat
      ensures k in more <==> exists i :: 0 <= i < |members| && FoundAs(replies, served, users, members, i, k)
    {
      if i :| 0 <= i < n && FoundAs(replies, served, users, init, i, k) {
        assert FoundAs(replies, served, users, members, i, k);
      }
      if i :| 0 <= i < |members| && FoundAs(replies, served, users, members, i, k) {
        assert i < n ==> FoundAs(replies, served, users, init, i, k);
      }
      if k in more && k !in ids {
        assert FoundAs(replies, served, users, members, n, k);
      }
    }
  }

  // Correlating members sends one probe each and changes nothing.
  lemma {:induction false} CorrelateOutcome(replies: Replies, w: World, members: seq<string>)
    ensures var (w', ids) := Correlate(replies, w, members);
            && w' == World(w.remote, w.served + |members|, w.trace + MemberProbes(replies, w.served, members))
            && FoundIds(replies, w.served, w.remote.users, members, ids)
  {
    if members != [] {
      var init := members[..|members| - 1];
      CorrelateOutcome(replies, w, init);
      FoundNext(replies, w.served, w.remote.users, members, Correlate(replies, w, init).1);
      hide FoundIds, FindUser;
      assert MemberProbes(replies, w.served, members)
          == MemberProbes(replies, w.served, init)
             + [LogEntry("Users", members[|members| - 1], "probe", replies(w.served + |init|, true))];
    } else {
      assert w.trace + MemberProbes(replies, w.served, members) == w.trace;
    }
  }

  lemma {:induction false} ProbesCountNothing(sent: seq<LogEntry>, collection: string, action: string)
    requires action != "probe" && forall i :: 0 <= i < |sent| ==> !IsWrite(sent[i])
    ensures AcceptedOf(sent, collection, action) == 0 && Refusals(sent) == 0
  {
    if sent != [] {
      ProbesCountNothing(sent[..|sent| - 1], collection, action);
    }
  }

  lemma ProbesChangeNothing(replies: Replies, w: World, members: seq<string>, res: SyncResult)
    ensures var sent := MemberProbes(replies, w.served, members);
            Outcome(replies, w, res, World(w.remote, w.served + |members|, w.trace + sent), res, sent)
  {
    var sent := MemberProbes(replies, w.served, members);
    ProbesCountNothing(sent, "Users", "create");
    ProbesCountNothing(sent, "Users", "update");
    ProbesCountNothing(sent, "Users", "deprovision");
    ProbesCountNothing(sent, "Groups", "create");
    ProbesCountNothing(sent, "Groups", "update");
    hide AcceptedOf, Refusals;
  }

  lemma GroupSendWrites(replies: Replies, w: World, g: Group, ids: seq<nat>, res: SyncResult)
    ensures var w', sent := GroupSend(replies, w, g, ids, res).0, GroupRequests(replies, w, g);
            if 200 <= sent[1].status <= 299 then
              && w'.remote.users == w.remote.users
              && GroupWritten(w.remote.groups, w'.remote.groups, g,
                              replies(w.served, true) == 200 && KnownGroup(w.remote.groups, g.displayName), ids)
            else w'.remote == w.remote
  {
    var at := FindGroup(w.remote.groups, g.displayName);
    assert at.Some? <==> KnownGroup(w.remote.groups, g.displayName);
    hide FindGroup;
  }

  lemma GroupSendSends(replies: Replies, w: World, g: Group, ids: seq<nat>, res: SyncResult)
    ensures Sends(replies, w, GroupSend(replies, w, g, ids, res).0, GroupRequests(replies, w, g))
  {
    var at := FindGroup(w.remote.groups, g.displayName);
    assert at.Some? <==> KnownGroup(w.remote.groups, g.displayName);
    hide FindGroup, KnownGroup, ApplyGroup;
    var sent := GroupRequests(replies, w, g);
    assert w.trace + [sent[0]] + [sent[1]] == w.trace + sent;
  }

  lemma GroupSendReports(replies: Replies, w: World, g: Group, ids: seq<nat>, res: SyncResult)
    ensures var res' := GroupSend(replies, w, g, ids, res).1;
            Reports(res, res', GroupRequests(replies, w, g)) && res'.skipped == res.skipped
  {
    var at := FindGroup(w.remote.groups, g.displayName);
    assert at.Some? <==> KnownGroup(w.remote.groups, g.displayName);
    hide FindGroup, KnownGroup, SendGroup, AcceptedOf, Refusals;
    OneOrTwo(GroupRequests(replies, w, g));
  }

  lemma GroupSendOutcome(replies: Replies, w: World, g: Group, ids: seq<nat>, res: SyncResult)
    ensures var (w', res') := GroupSend(replies, w, g, ids, res);
            Outcome(replies, w, res, w', res', GroupRequests(replies, w, g)) && res'.skipped == res.skipped
  {
    var w', sent := GroupSend(replies, w, g, ids, res).0, GroupRequests(replies, w, g);
    GroupSendWrites(replies, w, g, ids, res);
    GroupSendSends(replies, w, g, ids, res);
    GroupSendReports(replies, w, g, ids, res);
    OneOrTwo(sent);
    hide GroupSend, Sends, Reports, AcceptedOf;
    assert Accepted(sent[1]) ==> AcceptedFor(sent, "Groups", g.displayName);
  }

  // One group: its members are looked up, the group is created with them or has
  // them replaced, and the answer is counted.
  lemma GroupStepOutcome(replies: Replies, w: World, g: Group, res: SyncResult) returns (ids: seq<nat>)
    ensures FoundIds(replies, w.served, w.remote.users, MembersOf(g), ids)
    ensures var (w', res') := GroupStep(replies, w, g, res);
            var probes := MemberProbes(replies, w.served, MembersOf(g));
            var w1 := World(w.remote, w.served + |probes|, w.trace + probes);
            var sent := GroupRequests(replies, w1, g);
            && Outcome(replies, w, res, w', res', probes + sent) && res'.skipped == res.skipped
            && (if 200 <= sent[1].status <= 299 then
                  && w'.remote.users == w.remote.users
                  && GroupWritten(w.remote.groups, w'.remote.groups, g,
                                  replies(w1.served, true) == 200 && KnownGroup(w.remote.groups, g.displayName), ids)
                else w'.remote == w.remote)
  {
    hide Outcome, GroupSend, GroupWritten, KnownGroup, FoundIds;
    CorrelateOutcome(replies, w, MembersOf(g));
    var (w1, found) := Correlate(replies, w, MembersOf(g));
    ids := found;
    ProbesChangeNothing(replies, w, MembersOf(g), res);
    GroupSendOutcome(replies, w1, g, ids, res);
    GroupSendWrites(replies, w1, g, ids, res);
    var (w', res') := GroupSend(replies, w1, g, ids, res);
    var probes := MemberProbes(replies, w.served, MembersOf(g));
    Then(replies, w, res, w1, res, w', res', probes, GroupRequests(replies, w1, g));
  }

  // ---- A whole cycle ----

  lemma {:induction false} UsersOutcome(
      replies: Replies, w: World, us: seq<User>, incremental: bool, watermark: int, res: SyncResult)
    returns (sent: seq<LogEntry>)
    ensures var (w', res') := UsersLoop(replies, w, us, incremental, watermark, res);
            Outcome(replies, w, res, w', res', sent)
  {
    hide Outcome, UserStep;
    if us == [] {
      sent := [];
      Nothing(replies, w, res);
    } else {
      var n := |us| - 1;
      sent := UsersOutcome(replies, w, us[..n], incremental, watermark, res);
      var (w1, res1) := UsersLoop(replies, w, us[..n], incremental, watermark, res);
      if Skips(incremental, us[n].updatedAt, watermark) {
        SkippedCounts(replies, w, res, w1, res1, sent);
      } else {
        UserStepOutcome(replies, w1, us[n], res1);
        var (w2, res2) := UserStep(replies, w1, us[n], res1);
        var more := UserRequests(replies, w1, us[n]);
        Then(replies, w, res, w1, res1, w2, res2, sent, more);
        sent := sent + more;
      }
    }
  }

  lemma SkippedCounts(
      replies: Replies, w: World, res: SyncResult, after: World, res': SyncResult, sent: seq<LogEntry>)
    requires Outcome(replies, w, res, after, res', sent)
    ensures Outcome(replies, w, res, after, res'.(skipped := res'.skipped + 1), sent)
  {}

  lemma {:induction false} GroupsOutcome(replies: Replies, w: World, gs: seq<Group>, res: SyncResult)
    returns (sent: seq<LogEntry>)
    ensures var (w', res') := GroupsLoop(replies, w, gs, res);
            Outcome(replies, w, res, w', res', sent)
  {
    hide Outcome, GroupStep, FoundIds, GroupWritten;
    if gs == [] {
      sent := [];
      Nothing(replies, w, res);
    } else {
      var n := |gs| - 1;
      sent := GroupsOutcome(replies, w, gs[..n], res);
      var (w1, res1) := GroupsLoop(replies, w, gs[..n], res);
      var ids := GroupStepOutcome(replies, w1, gs[n], res1);
      var (w2, res2) := GroupStep(replies, w1, gs[n], res1);
      var probes := MemberProbes(replies, w1.served, MembersOf(gs[n]));
      var more := probes + GroupRequests(replies, World(w1.remote, w1.served + |probes|, w1.trace + probes), gs[n]);
      Then(replies, w, res, w1, res1, w2, res2, sent, more);
      sent := sent + more;
    }
  }

  // Whatever the target answers: the counters of a cycle are numbers of its
  // requests, by kind and by status; each request has the status the target gave
  // it; and the target's resources differ only where it accepted a write.
  lemma CycleOutcome(replies: Replies, w: World, dir: Directory, incremental: bool, watermark: int)
    returns (sent: seq<LogEntry>)
    requires dir.users.Rows?
    ensures var (w', res) := Cycle(replies, w, dir, incremental, watermark);
            && Sends(replies, w, w', sent)
            && Reports(NOTHING, res, sent)
            && ChangedAsAccepted(w.remote, w'.remote, sent)
  {
    hide UsersLoop, GroupsLoop;
    sent := UsersOutcome(replies, w, dir.users.rows, incremental, watermark, NOTHING);
    if dir.groups.Rows? {
      var (w1, res1) := UsersLoop(replies, w, dir.users.rows, incremental, watermark, NOTHING);
      var more := GroupsOutcome(replies, w1, dir.groups.rows, res1);
      var (w2, res2) := GroupsLoop(replies, w1, dir.groups.rows, res1);
      Then(replies, w, NOTHING, w1, res1, w2, res2, sent, more);
      sent := sent + more;
    }
  }

  function WritesIn(sent: seq<LogEntry>): nat {
    if sent == [] then 0
    else WritesIn(sent[..|sent| - 1]) + if IsWrite(sent[|sent| - 1]) then 1 else 0
  }

  lemma {:induction false} AllRefused(sent: seq<LogEntry>, collection: string, action: string)
    requires action != "probe" && forall i :: 0 <= i < |sent| && IsWrite(sent[i]) ==> !Accepted(sent[i])
    ensures AcceptedOf(sent, collection, action) == 0 && Refusals(sent) == WritesIn(sent)
  {
    if sent != [] {
      AllRefused(sent[..|sent| - 1], collection, action);
    }
  }

  // A target that refuses every write of a cycle is left as it was, and every
  // write is counted as failed.
  lemma RefusedCycleChangesNothing(replies: Replies, w: World, dir: Directory, incremental: bool, watermark: int)
    returns (sent: seq<LogEntry>)
    requires dir.users.Rows? && forall k: nat :: !(200 <= replies(k, false) <= 299)
    ensures var (w', res) := Cycle(replies, w, dir, incremental, watermark);
            && Sends(replies, w, w', sent) && w'.remote == w.remote
            && res.created == res.updated == res.deprovisioned == res.groupsCreated == res.groupsUpdated == 0
            && res.failed == WritesIn(sent)
  {
    sent := CycleOutcome(replies, w, dir, incremental, watermark);
    var w' := Cycle(replies, w, dir, incremental, watermark).0;
    assert forall i :: 0 <= i < |sent| && IsWrite(sent[i]) ==> !Accepted(sent[i]);
    hide Cycle;
    AllRefused(sent, "Users", "create");
    AllRefused(sent, "Users", "update");
    AllRefused(sent, "Users", "deprovision");
    AllRefused(sent, "Groups", "create");
    AllRefused(sent, "Groups", "update");
    hide AcceptedOf, Refusals, WritesIn;
    assert w'.remote.users == w.remote.users && w'.remote.groups == w.remote.groups;
  }
}
