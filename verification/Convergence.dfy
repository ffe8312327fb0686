/** What a provisioning cycle leaves behind: on any target the counters account
    for every resource, and on a target that refuses nothing a cycle brings the
    rows it looks at into agreement and a second one changes nothing. */
module Convergence {
  import opened Strings
  import opened Provisioning

  // ---- The counters account for every resource, whatever the target answers ----

  lemma {:induction false} UsersAccountedFor(
      replies: Replies, w: World, users: seq<User>, incremental: bool, watermark: int, res: SyncResult)
    ensures UsersLoop(replies, w, users, incremental, watermark, res).1.Total() == res.Total() + |users|
  {
    if users != [] {
      UsersAccountedFor(replies, w, users[..|users| - 1], incremental, watermark, res);
    }
  }

  lemma {:induction false} GroupsAccountedFor(replies: Replies, w: World, groups: seq<Group>, res: SyncResult)
    ensures GroupsLoop(replies, w, groups, res).1.Total() == res.Total() + |groups|
  {
    if groups != [] {
      GroupsAccountedFor(replies, w, groups[..|groups| - 1], res);
    }
  }

  lemma EveryResourceAccountedFor(replies: Replies, w: World, dir: Directory, incremental: bool, watermark: int)
    requires dir.users.Rows?
    ensures Cycle(replies, w, dir, incremental, watermark).1.Total()
            == |dir.users.rows| + if dir.groups.Rows? then |dir.groups.rows| else 0
  {
    UsersAccountedFor(replies, w, dir.users.rows, incremental, watermark, NOTHING);
    if dir.groups.Rows? {
      var (w', res) := UsersLoop(replies, w, dir.users.rows, incremental, watermark, NOTHING);
      GroupsAccountedFor(replies, w', dir.groups.rows, res);
    }
  }

  // ---- Users on a target that refuses nothing ----

  function Settle(users: seq<RemoteUser>, u: User): seq<RemoteUser> {
    var existing := FindUser(users, u.upn);
    if existing.None? then if u.enabled then users + [OutboundUser(u)] else users
    else if u.enabled then users[existing.value := users[existing.value].(active := true, displayName := u.displayName)]
    else users[existing.value := users[existing.value].(active := false)]
  }

  function SettleAll(users: seq<RemoteUser>, us: seq<User>): seq<RemoteUser> {
    if us == [] then users else Settle(SettleAll(users, us[..|us| - 1]), us[|us| - 1])
  }

  predicate DistinctNames(us: seq<User>) {
    forall i, j :: 0 <= i < j < |us| ==> us[i].upn != us[j].upn
  }

  // The target says of u what the directory says.
  predicate Reflects(users: seq<RemoteUser>, u: User) {
    var found := FindUser(users, u.upn);
    if u.enabled then found.Some? && users[found.value].active && users[found.value].displayName == u.displayName
    else found.Some? ==> !users[found.value].active
  }

  // Nothing else on the target moved: entries keep their place, their identity
  // and every attribute but the two a cycle writes; entries of users outside
  // the directory keep those too; and new entries are enabled users that had
  // none.
  ghost predicate OnlyDirectoryTouched(before: seq<RemoteUser>, after: seq<RemoteUser>, us: seq<User>) {
    && |before| <= |after|
    && (forall k :: 0 <= k < |before| ==>
          after[k] == before[k].(active := after[k].active, displayName := after[k].displayName))
    && (forall k :: 0 <= k < |before| && (forall u :: u in us ==> u.upn != before[k].userName)
          ==> after[k] == before[k])
    && (forall k :: |before| <= k < |after| ==> IsNew(before, us, after[k]))
  }

  ghost predicate IsNew(before: seq<RemoteUser>, us: seq<User>, r: RemoteUser) {
    exists u :: u in us && u.enabled && r == OutboundUser(u) && FindUser(before, u.upn).None?
  }

  lemma SettleOne(users: seq<RemoteUser>, u: User, other: User)
    ensures Reflects(Settle(users, u), u)
    ensures other.upn != u.upn ==> (Reflects(Settle(users, u), other) <==> Reflects(users, other))
    ensures Reflects(users, u) ==> Settle(users, u) == users
  {
    SameFind(users, Settle(users, u), other.upn, u.upn);
    SameFind(users, Settle(users, u), u.upn, u.upn);
  }

  lemma FoundAtUser(s: seq<RemoteUser>, name: string, k: nat)
    requires k < |s| && s[k].userName == name && forall j :: 0 <= j < k ==> s[j].userName != name
    ensures FindUser(s, name) == Some(k)
  {
    var r := FindUser(s, name);
    assert r.Some? && !(r.value < k) && !(k < r.value);
  }

  lemma AbsentUser(s: seq<RemoteUser>, name: string)
    requires forall j :: 0 <= j < |s| ==> s[j].userName != name
    ensures FindUser(s, name) == None
  {}

  // A cycle's step renames nothing and adds at most one entry at the end, so
  // every name is found where it was.
  lemma SameFind(before: seq<RemoteUser>, after: seq<RemoteUser>, name: string, added: string)
    requires |before| <= |after| <= |before| + 1
    requires forall k :: 0 <= k < |before| ==> after[k].userName == before[k].userName
    requires |after| > |before| ==> after[|before|].userName == added
    ensures FindUser(before, name).Some? ==> FindUser(after, name) == FindUser(before, name)
    ensures FindUser(before, name).None? ==>
              FindUser(after, name) == if |after| > |before| && name == added then Some(|before|) else None
  {
    var b := FindUser(before, name);
    if b.Some? {
      FoundAtUser(after, name, b.value);
    } else if |after| > |before| && name == added {
      FoundAtUser(after, name, |before|);
    } else {
      AbsentUser(after, name);
    }
  }

  lemma {:induction false} SettledUsers(users: seq<RemoteUser>, us: seq<User>)
    requires DistinctNames(us)
    ensures forall u :: u in us ==> Reflects(SettleAll(users, us), u)
    ensures OnlyDirectoryTouched(users, SettleAll(users, us), us)
  {
    if us != [] {
      var n := |us| - 1;
      var init, last := us[..n], us[n];
      assert us == init + [last];
      SettledUsers(users, init);
      var mid := SettleAll(users, init);
      var after := Settle(mid, last);
      forall u | u in us
        ensures Reflects(after, u)
      {
        SettleOne(mid, last, u);
        if u in init {
          var i :| 0 <= i < n && us[i] == u;
          assert u.upn != last.upn;
        }
      }
      StepTouches(users, mid, us);
    }
  }

  lemma StepTouches(before: seq<RemoteUser>, mid: seq<RemoteUser>, us: seq<User>)
    requires us != [] && DistinctNames(us) && OnlyDirectoryTouched(before, mid, us[..|us| - 1])
    ensures OnlyDirectoryTouched(before, Settle(mid, us[|us| - 1]), us)
  {
    var init, last := us[..|us| - 1], us[|us| - 1];
    assert us == init + [last];
    assert last in us;
    var after := Settle(mid, last);
    forall k | |before| <= k < |after|
      ensures IsNew(before, us, after[k])
    {
      if k < |mid| {
        NewStaysNew(before, us, mid[k]);
        assert after[k] == mid[k];
      } else {
        NotFoundBefore(before, mid, last.upn);
        assert after[k] == OutboundUser(last);
      }
    }
    forall k | 0 <= k < |before| && (forall u :: u in us ==> u.upn != before[k].userName)
      ensures after[k] == before[k]
    {
      assert mid[k] == before[k];
    }
  }

  lemma NewStaysNew(before: seq<RemoteUser>, us: seq<User>, r: RemoteUser)
    requires us != [] && DistinctNames(us) && IsNew(before, us[..|us| - 1], r)
    ensures IsNew(before, us, r) && r.userName != us[|us| - 1].upn
  {
    var init := us[..|us| - 1];
    var u :| u in init && u.enabled && r == OutboundUser(u) && FindUser(before, u.upn).None?;
    var i :| 0 <= i < |init| && init[i] == u;
    assert us[i] == u && u in us;
  }

  lemma NotFoundBefore(before: seq<RemoteUser>, mid: seq<RemoteUser>, name: string)
    requires |before| <= |mid| && FindUser(mid, name).None?
    requires forall k :: 0 <= k < |before| ==> mid[k].userName == before[k].userName
    ensures FindUser(before, name).None?
  {}

  lemma {:induction false} SettledStays(users: seq<RemoteUser>, us: seq<User>)
    requires forall u :: u in us ==> Reflects(users, u)
    ensures SettleAll(users, us) == users
  {
    if us != [] {
      assert us[..|us| - 1] + [us[|us| - 1]] == us;
      SettledStays(users, us[..|us| - 1]);
      SettleOne(users, us[|us| - 1], us[|us| - 1]);
    }
  }

  lemma StepSettles(replies: Replies, w: World, u: User, res: SyncResult)
    requires AlwaysSucceeds(replies)
    ensures var (w', res') := UserStep(replies, w, u, res);
            && w'.remote == w.remote.(users := Settle(w.remote.users, u))
            && res'.failed == res.failed && res'.groupsCreated == res.groupsCreated
            && (FindUser(w.remote.users, u.upn).Some? || !u.enabled ==> res'.created == res.created)
  {}

  lemma {:induction false} DueDistinct(us: seq<User>, incremental: bool, watermark: int)
    requires DistinctNames(us)
    ensures DistinctNames(Due(us, incremental, watermark))
  {
    if us != [] {
      var init, last := us[..|us| - 1], us[|us| - 1];
      DueDistinct(init, incremental, watermark);
      DueRows(init, incremental, watermark);
      forall u | u in Due(init, incremental, watermark)
        ensures u.upn != last.upn
      {
        var i :| 0 <= i < |init| && init[i] == u;
        assert us[i].upn != us[|us| - 1].upn;
      }
    }
  }

  lemma {:induction false} AllDue(us: seq<User>, watermark: int)
    ensures Due(us, false, watermark) == us
  {
    if us != [] {
      AllDue(us[..|us| - 1], watermark);
      assert us == us[..|us| - 1] + [us[|us| - 1]];
    }
  }

  lemma SettleAppended(users: seq<RemoteUser>, us: seq<User>, u: User)
    ensures SettleAll(users, us + [u]) == Settle(SettleAll(users, us), u)
  {
    assert (us + [u])[..|us|] == us;
  }

  lemma {:induction false} LoopSettles(
      replies: Replies, w: World, us: seq<User>, incremental: bool, watermark: int, res: SyncResult)
    requires AlwaysSucceeds(replies)
    ensures var (w', res') := UsersLoop(replies, w, us, incremental, watermark, res);
            && w'.remote == w.remote.(users := SettleAll(w.remote.users, Due(us, incremental, watermark)))
            && res'.failed == res.failed && res'.groupsCreated == res.groupsCreated
  {
    hide UserStep, Settle;
    if us != [] {
      var n := |us| - 1;
      var due := Due(us[..n], incremental, watermark);
      LoopSettles(replies, w, us[..n], incremental, watermark, res);
      if Skips(incremental, us[n].updatedAt, watermark) {
        assert Due(us, incremental, watermark) == due;
      } else {
        var (w', res') := UsersLoop(replies, w, us[..n], incremental, watermark, res);
        StepSettles(replies, w', us[n], res');
        SettleAppended(w.remote.users, due, us[n]);
        assert Due(us, incremental, watermark) == due + [us[n]];
      }
    }
  }

  // Whether a user outside the rows is reflected does not change.
  lemma {:induction false} OthersStandAsTheyWere(users: seq<RemoteUser>, us: seq<User>, other: User)
    requires forall u :: u in us ==> u.upn != other.upn
    ensures Reflects(SettleAll(users, us), other) <==> Reflects(users, other)
  {
    if us != [] {
      var init, last := us[..|us| - 1], us[|us| - 1];
      assert us == init + [last];
      OthersStandAsTheyWere(users, init, other);
      SettleOne(SettleAll(users, init), last, other);
    }
  }

  // On a target that already agrees with the directory no cycle, full or
  // incremental, changes or creates a user.
  lemma {:induction false} LoopStays(
      replies: Replies, w: World, us: seq<User>, incremental: bool, watermark: int, res: SyncResult)
    requires AlwaysSucceeds(replies)
    requires forall u :: u in us ==> Reflects(w.remote.users, u)
    ensures var (w', res') := UsersLoop(replies, w, us, incremental, watermark, res);
            w'.remote == w.remote && res'.created == res.created && res'.failed == res.failed
            && res'.groupsCreated == res.groupsCreated
  {
    if us != [] {
      var n := |us| - 1;
      assert us[..n] + [us[n]] == us;
      LoopStays(replies, w, us[..n], incremental, watermark, res);
      var (w', res') := UsersLoop(replies, w, us[..n], incremental, watermark, res);
      StepSettles(replies, w', us[n], res');
      SettleOne(w.remote.users, us[n], us[n]);
    }
  }

  // ---- Groups ----

  // The target's ids of the members it knows, in the directory's order.
  function Present(users: seq<RemoteUser>, members: seq<string>): seq<nat> {
    if members == [] then []
    else
      var n := |members| - 1;
      var found := FindUser(users, members[n]);
      Present(users, members[..n]) + if found.Some? then [found.value] else []
  }

  function Membership(users: seq<RemoteUser>, g: Group): seq<nat> {
    if g.members.Rows? then Present(users, g.members.rows) else []
  }

  function SettleGroup(groups: seq<RemoteGroup>, users: seq<RemoteUser>, g: Group): seq<RemoteGroup> {
    var existing := FindGroup(groups, g.displayName);
    var ids := Membership(users, g);
    if existing.None? then groups + [RemoteGroup(g.id, g.displayName, ids)]
    else groups[existing.value := groups[existing.value].(members := ids)]
  }

  function SettleGroups(groups: seq<RemoteGroup>, users: seq<RemoteUser>, gs: seq<Group>): seq<RemoteGroup> {
    if gs == [] then groups else SettleGroup(SettleGroups(groups, users, gs[..|gs| - 1]), users, gs[|gs| - 1])
  }

  predicate ReflectsGroup(groups: seq<RemoteGroup>, users: seq<RemoteUser>, g: Group) {
    var found := FindGroup(groups, g.displayName);
    found.Some? && groups[found.value].members == Membership(users, g)
  }

  lemma SettleOneGroup(groups: seq<RemoteGroup>, users: seq<RemoteUser>, g: Group, other: Group)
    ensures ReflectsGroup(SettleGroup(groups, users, g), users, g)
    ensures other.displayName != g.displayName && ReflectsGroup(groups, users, other)
            ==> ReflectsGroup(SettleGroup(groups, users, g), users, other)
    ensures ReflectsGroup(groups, users, g) ==> SettleGroup(groups, users, g) == groups
  {
    SameFindGroup(groups, SettleGroup(groups, users, g), other.displayName, g.displayName);
    SameFindGroup(groups, SettleGroup(groups, users, g), g.displayName, g.displayName);
  }

  lemma FoundAtGroup(s: seq<RemoteGroup>, name: string, k: nat)
    requires k < |s| && s[k].displayName == name && forall j :: 0 <= j < k ==> s[j].displayName != name
    ensures FindGroup(s, name) == Some(k)
  {
    var r := FindGroup(s, name);
    assert r.Some? && !(r.value < k) && !(k < r.value);
  }

  lemma AbsentGroup(s: seq<RemoteGroup>, name: string)
    requires forall j :: 0 <= j < |s| ==> s[j].displayName != name
    ensures FindGroup(s, name) == None
  {}

  lemma SameFindGroup(before: seq<RemoteGroup>, after: seq<RemoteGroup>, name: string, added: string)
    requires |before| <= |after| <= |before| + 1
    requires forall k :: 0 <= k < |before| ==> after[k].displayName == before[k].displayName
    requires |after| > |before| ==> after[|before|].displayName == added
    ensures FindGroup(before, name).Some? ==> FindGroup(after, name) == FindGroup(before, name)
    ensures FindGroup(before, name).None? ==>
              FindGroup(after, name) == if |after| > |before| && name == added then Some(|before|) else None
  {
    var b := FindGroup(before, name);
    if b.Some? {
      FoundAtGroup(after, name, b.value);
    } else if |after| > |before| && name == added {
      FoundAtGroup(after, name, |before|);
    } else {
      AbsentGroup(after, name);
    }
  }

  // Groups are found on the target by display name alone, and several groups of
  // the directory may share one.  The last of a name is the one that counts.
  predicate LastNamed(gs: seq<Group>, i: nat) {
    i < |gs| && forall j :: i < j < |gs| ==> gs[j].displayName != gs[i].displayName
  }

  ghost predicate LastReflected(groups: seq<RemoteGroup>, users: seq<RemoteUser>, gs: seq<Group>) {
    forall i: nat :: LastNamed(gs, i) ==> ReflectsGroup(groups, users, gs[i])
  }

  lemma LastOfName(gs: seq<Group>, i: nat) returns (j: nat)
    requires i < |gs|
    ensures i <= j && LastNamed(gs, j) && gs[j].displayName == gs[i].displayName
    decreases |gs| - i
  {
    if k :| i < k < |gs| && gs[k].displayName == gs[i].displayName {
      j := LastOfName(gs, k);
    } else {
      j := i;
    }
  }

  lemma {:induction false} SettledGroups(groups: seq<RemoteGroup>, users: seq<RemoteUser>, gs: seq<Group>)
    ensures LastReflected(SettleGroups(groups, users, gs), users, gs)
    ensures OnlyNamedGroupsTouched(groups, SettleGroups(groups, users, gs), gs)
  {
    if gs != [] {
      var n := |gs| - 1;
      var init, last := gs[..n], gs[n];
      SettledGroups(groups, users, init);
      var mid := SettleGroups(groups, users, init);
      forall i: nat | LastNamed(gs, i)
        ensures ReflectsGroup(SettleGroup(mid, users, last), users, gs[i])
      {
        SettleOneGroup(mid, users, last, gs[i]);
        if i < n {
          assert gs[n].displayName != gs[i].displayName;
          assert LastNamed(init, i) by {
            forall j | i < j < n
              ensures init[j].displayName != init[i].displayName
            {
              assert gs[j].displayName != gs[i].displayName;
            }
          }
        }
      }
      GroupStepTouches(groups, mid, users, gs);
    }
  }

  // Every group that was there is still where it was, by its own id and name;
  // only its members may differ, and only when the directory names it.
  ghost predicate OnlyNamedGroupsTouched(before: seq<RemoteGroup>, after: seq<RemoteGroup>, gs: seq<Group>) {
    && |before| <= |after|
    && forall k :: 0 <= k < |before| ==>
         && after[k] == before[k].(members := after[k].members)
         && ((forall d :: d in gs ==> d.displayName != before[k].displayName) ==> after[k] == before[k])
  }

  lemma GroupStepTouches(before: seq<RemoteGroup>, mid: seq<RemoteGroup>, users: seq<RemoteUser>, gs: seq<Group>)
    requires gs != [] && OnlyNamedGroupsTouched(before, mid, gs[..|gs| - 1])
    ensures OnlyNamedGroupsTouched(before, SettleGroup(mid, users, gs[|gs| - 1]), gs)
  {
    var init, last := gs[..|gs| - 1], gs[|gs| - 1];
    assert gs == init + [last];
    assert last in gs;
  }

  // Every group is reflected exactly when groups of one name have the members
  // the target knows in common.
  ghost predicate SameNameSameMembers(users: seq<RemoteUser>, gs: seq<Group>) {
    forall i, j :: 0 <= i < j < |gs| && gs[i].displayName == gs[j].displayName ==>
      Membership(users, gs[i]) == Membership(users, gs[j])
  }

  lemma AllReflectedIff(groups: seq<RemoteGroup>, users: seq<RemoteUser>, gs: seq<Group>)
    ensures (forall g :: g in gs ==> ReflectsGroup(SettleGroups(groups, users, gs), users, g))
            <==> SameNameSameMembers(users, gs)
  {
    var after := SettleGroups(groups, users, gs);
    SettledGroups(groups, users, gs);
    hide SettleGroups, Membership;
    if SameNameSameMembers(users, gs) {
      forall g | g in gs
        ensures ReflectsGroup(after, users, g)
      {
        var i :| 0 <= i < |gs| && gs[i] == g;
        var j := LastOfName(gs, i);
        assert ReflectsGroup(after, users, gs[j]);
        assert Membership(users, gs[i]) == Membership(users, gs[j]);
      }
    }
    if forall g :: g in gs ==> ReflectsGroup(after, users, g) {
      forall i, j | 0 <= i < j < |gs| && gs[i].displayName == gs[j].displayName
        ensures Membership(users, gs[i]) == Membership(users, gs[j])
      {
        assert ReflectsGroup(after, users, gs[i]) && ReflectsGroup(after, users, gs[j]);
      }
    }
  }

  // In a second pass an entry differs from what the first pass left only while
  // a later group still writes it.
  ghost predicate AgreesFrom(x: seq<RemoteGroup>, settled: seq<RemoteGroup>, gs: seq<Group>, n: nat) {
    && |x| == |settled|
    && forall k :: 0 <= k < |x| ==>
         && x[k] == settled[k].(members := x[k].members)
         && (x[k] == settled[k] || StillWritten(settled, gs, n, k))
  }

  ghost predicate StillWritten(settled: seq<RemoteGroup>, gs: seq<Group>, n: nat, k: nat) {
    exists j :: n <= j < |gs| && FindGroup(settled, gs[j].displayName) == Some(k)
  }

  lemma FoundAlike(x: seq<RemoteGroup>, settled: seq<RemoteGroup>, name: string)
    requires |x| == |settled| && forall k :: 0 <= k < |x| ==> x[k].displayName == settled[k].displayName
    ensures FindGroup(x, name) == FindGroup(settled, name)
  {
    var f := FindGroup(settled, name);
    if f.Some? {
      FoundAtGroup(x, name, f.value);
    } else {
      AbsentGroup(x, name);
    }
  }

  lemma NameIsThere(settled: seq<RemoteGroup>, users: seq<RemoteUser>, gs: seq<Group>, n: nat)
    requires LastReflected(settled, users, gs) && n < |gs|
    ensures FindGroup(settled, gs[n].displayName).Some?
  {
    var j := LastOfName(gs, n);
    assert ReflectsGroup(settled, users, gs[j]);
  }

  lemma SecondPassStep(
      x: seq<RemoteGroup>, settled: seq<RemoteGroup>, users: seq<RemoteUser>, gs: seq<Group>, n: nat)
    requires LastReflected(settled, users, gs) && n < |gs| && AgreesFrom(x, settled, gs, n)
    ensures FindGroup(x, gs[n].displayName).Some?
    ensures AgreesFrom(SettleGroup(x, users, gs[n]), settled, gs, n + 1)
  {
    NameIsThere(settled, users, gs, n);
    FoundAlike(x, settled, gs[n].displayName);
    var at := FindGroup(settled, gs[n].displayName).value;
    var after := SettleGroup(x, users, gs[n]);
    if LastNamed(gs, n) {
      assert ReflectsGroup(settled, users, gs[n]);
      assert after[at] == settled[at];
    } else {
      var j :| n < j < |gs| && gs[j].displayName == gs[n].displayName;
      assert FindGroup(settled, gs[j].displayName) == Some(at);
    }
    hide Membership, FindGroup;
    forall k | 0 <= k < |after| && k != at
      ensures after[k] == settled[k] || StillWritten(settled, gs, n + 1, k)
    {
      if after[k] != settled[k] {
        var j :| n <= j < |gs| && FindGroup(settled, gs[j].displayName) == Some(k);
        assert j != n;
      }
    }
  }

  lemma {:induction false} CorrelateIsPresent(replies: Replies, w: World, members: seq<string>)
    requires AlwaysSucceeds(replies)
    ensures var (w', ids) := Correlate(replies, w, members);
            w'.remote == w.remote && ids == Present(w.remote.users, members)
  {
    if members != [] {
      CorrelateIsPresent(replies, w, members[..|members| - 1]);
    }
  }

  lemma GroupStepSettles(replies: Replies, w: World, g: Group, res: SyncResult)
    requires AlwaysSucceeds(replies)
    ensures var (w', res') := GroupStep(replies, w, g, res);
            && w'.remote == w.remote.(groups := SettleGroup(w.remote.groups, w.remote.users, g))
            && res'.failed == res.failed && res'.created == res.created
            && (FindGroup(w.remote.groups, g.displayName).Some? ==> res'.groupsCreated == res.groupsCreated)
  {
    if g.members.Rows? {
      CorrelateIsPresent(replies, w, g.members.rows);
    }
  }

  lemma {:induction false} GroupsLoopSettles(replies: Replies, w: World, gs: seq<Group>, res: SyncResult)
    requires AlwaysSucceeds(replies)
    ensures var (w', res') := GroupsLoop(replies, w, gs, res);
            && w'.remote == w.remote.(groups := SettleGroups(w.remote.groups, w.remote.users, gs))
            && res'.failed == res.failed && res'.created == res.created
  {
    if gs != [] {
      var n := |gs| - 1;
      GroupsLoopSettles(replies, w, gs[..n], res);
      var (w', res') := GroupsLoop(replies, w, gs[..n], res);
      GroupStepSettles(replies, w', gs[n], res');
    }
  }

  // A second pass over the groups, of which the first n are done.
  lemma {:induction false} SecondPass(
      replies: Replies, w: World, start: World, gs: seq<Group>, n: nat, res: SyncResult)
    requires AlwaysSucceeds(replies) && n <= |gs|
    requires LastReflected(w.remote.groups, w.remote.users, gs) && start.remote == w.remote
    ensures var (w', res') := GroupsLoop(replies, start, gs[..n], res);
            && w'.remote.users == w.remote.users
            && AgreesFrom(w'.remote.groups, w.remote.groups, gs, n)
            && res'.groupsCreated == res.groupsCreated && res'.failed == res.failed && res'.created == res.created
  {
    if n > 0 {
      assert gs[..n][..n - 1] == gs[..n - 1];
      SecondPass(replies, w, start, gs, n - 1, res);
      var (w', res') := GroupsLoop(replies, start, gs[..n - 1], res);
      GroupStepSettles(replies, w', gs[n - 1], res');
      SecondPassStep(w'.remote.groups, w.remote.groups, w.remote.users, gs, n - 1);
    }
  }

  lemma GroupsLoopStays(replies: Replies, w: World, gs: seq<Group>, res: SyncResult)
    requires AlwaysSucceeds(replies) && LastReflected(w.remote.groups, w.remote.users, gs)
    ensures var (w', res') := GroupsLoop(replies, w, gs, res);
            w'.remote == w.remote && res'.groupsCreated == res.groupsCreated
            && res'.failed == res.failed && res'.created == res.created
  {
    SecondPass(replies, w, w, gs, |gs|, res);
    assert gs[..|gs|] == gs;
    var w' := GroupsLoop(replies, w, gs, res).0;
    assert w'.remote.groups == w.remote.groups;
  }

  // ---- The two cycles ----

  ghost predicate Readable(dir: Directory) {
    dir.users.Rows? && DistinctNames(dir.users.rows)
  }

  // What a cycle of either mode does: a user is reflected exactly when the
  // cycle looked at its row or it was reflected before, nobody else is touched,
  // and the last group of each name is reflected.
  lemma CycleConverges(replies: Replies, w: World, dir: Directory, incremental: bool, watermark: int)
    requires AlwaysSucceeds(replies) && Readable(dir)
    ensures var (w', res) := Cycle(replies, w, dir, incremental, watermark);
            && (forall u :: u in dir.users.rows ==>
                  (Reflects(w'.remote.users, u)
                   <==> !Skips(incremental, u.updatedAt, watermark) || Reflects(w.remote.users, u)))
            && OnlyDirectoryTouched(w.remote.users, w'.remote.users, Due(dir.users.rows, incremental, watermark))
            && (if dir.groups.Rows? then
                  && LastReflected(w'.remote.groups, w'.remote.users, dir.groups.rows)
                  && OnlyNamedGroupsTouched(w.remote.groups, w'.remote.groups, dir.groups.rows)
                  && ((forall g :: g in dir.groups.rows ==> ReflectsGroup(w'.remote.groups, w'.remote.users, g))
                      <==> SameNameSameMembers(w'.remote.users, dir.groups.rows))
                else w'.remote.groups == w.remote.groups)
            && res.failed == 0
  {
    var us := dir.users.rows;
    var due := Due(us, incremental, watermark);
    LoopSettles(replies, w, us, incremental, watermark, NOTHING);
    DueRows(us, incremental, watermark);
    DueDistinct(us, incremental, watermark);
    SettledUsers(w.remote.users, due);
    forall u | u in us && u !in due
      ensures Reflects(SettleAll(w.remote.users, due), u) <==> Reflects(w.remote.users, u)
    {
      PassedOver(w.remote.users, us, due, u);
    }
    if dir.groups.Rows? {
      var gs := dir.groups.rows;
      var (w1, res1) := UsersLoop(replies, w, us, incremental, watermark, NOTHING);
      GroupsLoopSettles(replies, w1, gs, res1);
      SettledGroups(w1.remote.groups, w1.remote.users, gs);
      AllReflectedIff(w1.remote.groups, w1.remote.users, gs);
    }
  }

  lemma PassedOver(users: seq<RemoteUser>, us: seq<User>, due: seq<User>, u: User)
    requires DistinctNames(us) && u in us && u !in due && forall d :: d in due ==> d in us
    ensures Reflects(SettleAll(users, due), u) <==> Reflects(users, u)
  {
    forall d | d in due
      ensures d.upn != u.upn
    {
      var i, j :| 0 <= i < |us| && us[i] == d && 0 <= j < |us| && us[j] == u;
    }
    OthersStandAsTheyWere(users, due, u);
  }

  // One full cycle brings every user of the directory into agreement, whatever
  // the target held, and touches nothing the directory does not name.
  lemma FullCycleConverges(replies: Replies, w: World, dir: Directory, watermark: int)
    requires AlwaysSucceeds(replies) && Readable(dir)
    ensures var (w', res) := Cycle(replies, w, dir, false, watermark);
            && (forall u :: u in dir.users.rows ==> Reflects(w'.remote.users, u))
            && OnlyDirectoryTouched(w.remote.users, w'.remote.users, dir.users.rows)
            && (if dir.groups.Rows? then
                  && LastReflected(w'.remote.groups, w'.remote.users, dir.groups.rows)
                  && OnlyNamedGroupsTouched(w.remote.groups, w'.remote.groups, dir.groups.rows)
                  && ((forall g :: g in dir.groups.rows ==> ReflectsGroup(w'.remote.groups, w'.remote.users, g))
                      <==> SameNameSameMembers(w'.remote.users, dir.groups.rows))
                else w'.remote.groups == w.remote.groups)
            && res.failed == 0
  {
    AllDue(dir.users.rows, watermark);
    CycleConverges(replies, w, dir, false, watermark);
  }

  // The next cycle of either mode leaves the target as it is and creates
  // nothing, also when groups share a name.
  lemma NextCycleChangesNothing(
      replies: Replies, w: World, dir: Directory, watermark: int, incremental: bool, watermark': int)
    requires AlwaysSucceeds(replies) && Readable(dir)
    ensures var w1 := Cycle(replies, w, dir, false, watermark).0;
            var (w2, res) := Cycle(replies, w1, dir, incremental, watermark');
            w2.remote == w1.remote && res.created == 0 && res.groupsCreated == 0 && res.failed == 0
  {
    FullCycleConverges(replies, w, dir, watermark);
    hide Reflects, LastReflected, OnlyDirectoryTouched, OnlyNamedGroupsTouched, SameNameSameMembers;
    var w1 := Cycle(replies, w, dir, false, watermark).0;
    LoopStays(replies, w1, dir.users.rows, incremental, watermark', NOTHING);
    if dir.groups.Rows? {
      var (w', res') := UsersLoop(replies, w1, dir.users.rows, incremental, watermark', NOTHING);
      GroupsLoopStays(replies, w', dir.groups.rows, res');
    }
  }

  // ---- Another target ----

  const ANN := User("1", "ann", "Ann", "", "", "", true, 0)
  const BOB := User("2", "bob", "Bob", "", "", "", true, 0)
  const TEAM_A := Group("a", "Team", Rows(["ann"]))
  const TEAM_B := Group("b", "Team", Rows(["bob"]))
  const TWO_TEAMS := Directory(Rows([ANN, BOB]), Rows([TEAM_A, TEAM_B]), 1)

  // The watermark belongs to the provisioner and not to a target.  After a
  // change of target an incremental cycle brings a user to the new one exactly
  // when the row was stamped at or after the last cycle's start, wherever that
  // cycle went, or the new target agreed already.
  method ProvisionAnother(p: Provisioner, t: ScimTarget, dir: Directory) returns (res: Option<SyncResult>)
    requires p.Valid() && AlwaysSucceeds(t.replies) && Readable(dir)
    modifies p, t
    ensures p.Valid() && res.Some? && p.target == t && p.watermark == dir.now
    ensures forall u :: u in dir.users.rows ==>
              (Reflects(t.remote.users, u)
               <==> old(p.watermark) <= u.updatedAt || Reflects(old(t.remote.users), u))
  {
    p.SetTarget(t);
    ghost var w := p.Snapshot(t);
    res := p.Sync(dir, true);
    CycleConverges(t.replies, w, dir, true, old(p.watermark));
  }

  // A new target gets no user of a directory that an earlier cycle has seen.
  lemma NewTargetStaysEmpty(replies: Replies, w: World)
    requires AlwaysSucceeds(replies) && w.remote == Remote([], [])
    ensures var w' := Cycle(replies, w, TWO_TEAMS, true, TWO_TEAMS.now).0;
            w'.remote.users == [] && !Reflects(w'.remote.users, ANN)
  {
    var us, now := [ANN, BOB], TWO_TEAMS.now;
    assert us[..1] == [ANN] && [ANN][..0] == [];
    assert Due([ANN], true, now) == [];
    LoopSettles(replies, w, us, true, now, NOTHING);
    var (w1, res1) := UsersLoop(replies, w, us, true, now, NOTHING);
    GroupsLoopSettles(replies, w1, [TEAM_A, TEAM_B], res1);
  }

  // ---- Groups that share a name ----

  // Two groups of one name end as one group: the first one's, with the second
  // one's members.
  lemma NamesakesCollapse(replies: Replies, w: World)
    requires AlwaysSucceeds(replies) && w.remote == Remote([], [])
    ensures var w' := Cycle(replies, w, TWO_TEAMS, false, 0).0;
            && w'.remote.groups == [RemoteGroup("a", "Team", [1])]
            && !ReflectsGroup(w'.remote.groups, w'.remote.users, TEAM_A)
  {
    var us, gs := [ANN, BOB], [TEAM_A, TEAM_B];
    LoopSettles(replies, w, us, false, 0, NOTHING);
    AllDue(us, 0);
    var (w1, res1) := UsersLoop(replies, w, us, false, 0, NOTHING);
    GroupsLoopSettles(replies, w1, gs, res1);
    hide UsersLoop, GroupsLoop;
    TwoUsersSettle();
    TwoTeamsSettle(w1.remote.users);
  }

  lemma TwoUsersSettle()
    ensures SettleAll([], [ANN, BOB]) == [OutboundUser(ANN), OutboundUser(BOB)]
  {
    assert [ANN, BOB][..1] == [ANN] && [ANN][..0] == [];
    assert SettleAll([], [ANN]) == [OutboundUser(ANN)];
    AbsentUser([OutboundUser(ANN)], "bob");
  }

  lemma OnlyMember(users: seq<RemoteUser>, g: Group, name: string, k: nat)
    requires g.members == Rows([name]) && FindUser(users, name) == Some(k)
    ensures Membership(users, g) == [k]
  {
    var members := [name];
    assert members[..0] == [] && members[0] == name;
    assert Present(users, members) == [k];
  }

  lemma TwoTeamsSettle(users: seq<RemoteUser>)
    requires users == [OutboundUser(ANN), OutboundUser(BOB)]
    ensures var groups := SettleGroups([], users, [TEAM_A, TEAM_B]);
            groups == [RemoteGroup("a", "Team", [1])] && !ReflectsGroup(groups, users, TEAM_A)
  {
    FoundAtUser(users, "ann", 0);
    FoundAtUser(users, "bob", 1);
    OnlyMember(users, TEAM_A, "ann", 0);
    OnlyMember(users, TEAM_B, "bob", 1);
    hide Membership;
    assert [TEAM_A, TEAM_B][..1] == [TEAM_A] && [TEAM_A][..0] == [];
    var one := [RemoteGroup("a", "Team", [0])];
    assert SettleGroups([], users, [TEAM_A]) == one;
    FoundAtGroup(one, "Team", 0);
    assert SettleGroup(one, users, TEAM_B) == [RemoteGroup("a", "Team", [1])];
    FoundAtGroup([RemoteGroup("a", "Team", [1])], "Team", 0);
  }
}
