/** Group membership over SCIM (internal/scim/resources.go): PUT reconciles the
    membership with the submitted list, PATCH applies operations one by one. */
module GroupMembers {
  import opened Strings

  // A JSON value as far as the handlers look at it.
  datatype Json = Absent | Null | Text(text: string) | List(ids: seq<string>) | Other
  datatype Op = Op(op: string, path: string, value: Json)
  datatype Body = Body(displayName: string, externalId: string, members: seq<string>)
  datatype Status = NotFound | BadRequest | Done

  datatype Group = Group(name: string, ext: string, members: set<string>)

  function AsString(v: Json): string { if v.Text? then v.text else "" }

  // The submitted ids that can be members.
  function Wanted(ids: seq<string>, users: set<string>): set<string> {
    set v | v in ids && v != "" && v in users
  }

  // ---- members[value eq "id"] ----

  const FILTER := "members[value eq \""

  function FirstQuote(s: string): Option<nat> { Index(s, "\"") }

  // The id when the expression matches at i.
  function MemberIdAt(path: string, i: nat): Option<string>
    requires i <= |path|
  {
    if !OccursAt(path, FILTER, i) then None
    else
      var rest := path[i + |FILTER|..];
      var q := FirstQuote(rest);
      if q.Some? && q.value > 0 && q.value + 1 < |rest| && rest[q.value + 1] == ']' then Some(rest[..q.value])
      else None
  }

  // The leftmost match.
  function MemberIdFrom(path: string, i: nat): Option<string>
    requires i <= |path|
    decreases |path| - i
  {
    var here := MemberIdAt(path, i);
    if here.Some? || i == |path| then here else MemberIdFrom(path, i + 1)
  }

  function MemberId(path: string): Option<string> { MemberIdFrom(path, 0) }

  predicate NamesMembers(path: string) {
    path == "" || EqualFold(TrimSpace(Split(path, '[')[0]), "members")
  }

  // ---- One operation ----

  function PatchStep(g: Group, op: Op, users: set<string>): Group {
    var remove := EqualFold(op.op, "remove");
    if EqualFold(op.path, "displayName") then
      if remove then g else g.(name := AsString(op.value))
    else if EqualFold(op.path, "externalId") then
      g.(ext := if remove then "" else AsString(op.value))
    else if MemberId(op.path).Some? then g.(members := g.members - {MemberId(op.path).value})
    else if !NamesMembers(op.path) then g
    else g.(members := MembersAfter(g.members, remove, op.value, users))
  }

  function MembersAfter(members: set<string>, remove: bool, value: Json, users: set<string>): set<string> {
    var listed := if value.List? then value.ids else [];
    if remove && listed == [] then {}
    else if remove then members - set v | v in listed
    else members + set v | v in listed && v in users
  }

  function Patched(g: Group, ops: seq<Op>, users: set<string>): Group {
    if ops == [] then g else PatchStep(Patched(g, ops[..|ops| - 1], users), ops[|ops| - 1], users)
  }

  // ---- The store ----

  function MembersIn(edges: set<(string, string)>, group: string): set<string> {
    set e | e in edges && e.0 == group :: e.1
  }

  class Directory {
    const users: set<string>
    var names: map<string, string>
    var external: map<string, string>
    var edges: set<(string, string)>

    // The foreign keys of the membership table.
    ghost predicate Valid()
      reads this
    {
      forall e :: e in edges ==> e.0 in names && e.1 in users
    }

    function Members(id: string): set<string>
      reads this`edges
    {
      MembersIn(edges, id)
    }

    function External(id: string): string
      reads this`external
    {
      if id in external then external[id] else ""
    }

    // A group as a reader sees it.
    function View(id: string): Group
      reads this
      requires id in names
    {
      Group(names[id], External(id), Members(id))
    }

    constructor (users: set<string>)
      ensures Valid() && this.users == users && names == map[] && external == map[] && edges == {}
    {
      this.users := users;
      names, external, edges := map[], map[], {};
    }

    method AddGroupMember(group: string, user: string)
      requires Valid()
      modifies this`edges
      ensures Valid()
      ensures edges == old(edges) + if group in names && user in users then {(group, user)} else {}
    {
      if group in names && user in users {
        edges := edges + {(group, user)};
      }
    }

    method RemoveGroupMember(group: string, user: string)
      requires Valid()
      modifies this`edges
      ensures Valid() && edges == old(edges) - {(group, user)}
    {
      edges := edges - {(group, user)};
    }

    method ListGroupMembers(group: string) returns (r: seq<string>)
      ensures forall u :: u in r <==> u in Members(group)
    {
      r := [];
      var left := edges;
      while left != {}
        invariant left <= edges
        invariant forall u :: u in r <==> (group, u) in edges - left
        decreases left
      {
        var e :| e in left;
        if e.0 == group {
          r := r + [e.1];
        }
        left := left - {e};
      }
      assert forall u :: u in Members(group) <==> (group, u) in edges;
    }

    method SetExternalID(group: string, ext: string)
      modifies this`external
      ensures External(group) == ext
      ensures forall g :: g != group ==> External(g) == old(External(g))
    {
      if ext == "" {
        external := external - {group};
      } else {
        external := external[group := ext];
      }
    }

    // Removes the members nobody asked for, then adds the ones missing.
    method Reconcile(group: string, ids: seq<string>)
      requires Valid() && group in names
      modifies this`edges
      ensures Valid() && Members(group) == Wanted(ids, users)
      ensures forall g :: g != group ==> Members(g) == old(Members(g))
    {
      var want := set v | v in ids && v != "";
      var current := ListGroupMembers(group);
      var have: set<string> := {};
      for i := 0 to |current|
        invariant Valid() && have == set u | u in current[..i]
        invariant edges == old(edges) - set u | u in current[..i] && u !in want :: (group, u)
      {
        have := have + {current[i]};
        if current[i] !in want {
          RemoveGroupMember(group, current[i]);
        }
      }
      assert current[..|current|] == current;
      ghost var kept := edges;
      assert forall u :: (group, u) in kept <==> (group, u) in old(edges) && u in want;
      for i := 0 to |ids|
        invariant Valid()
        invariant edges == kept + set u | u in ids[..i] && u != "" && u !in have && u in users :: (group, u)
      {
        if ids[i] != "" && ids[i] !in have {
          AddGroupMember(group, ids[i]);
        }
      }
      assert ids[..|ids|] == ids;
      forall u
        ensures u in Members(group) <==> u in Wanted(ids, users)
      {
        assert u in Members(group) <==> (group, u) in edges;
        assert u in have <==> (group, u) in old(edges);
      }
      SameElsewhere(old(edges), edges, group);
    }

    lemma SameElsewhere(before: set<(string, string)>, after: set<(string, string)>, group: string)
      requires forall e: (string, string) :: e.0 != group ==> (e in before <==> e in after)
      ensures forall g :: g != group ==> MembersIn(before, g) == MembersIn(after, g)
    {
    }

    // PUT: the group becomes what the body says, whatever it was.
    method ReplaceGroup(id: string, body: Body) returns (status: Status)
      requires Valid()
      modifies this
      ensures Valid()
      ensures status == if id !in old(names) then NotFound else if body.displayName == "" then BadRequest else Done
      ensures status.Done? ==>
                && names == old(names)[id := body.displayName]
                && View(id) == Group(body.displayName, body.externalId, Wanted(body.members, users))
      ensures !status.Done? ==> names == old(names) && external == old(external) && edges == old(edges)
      ensures forall g :: g in old(names) && g != id ==> g in names && View(g) == old(View(g))
    {
      if id !in names {
        return NotFound;
      }
      if body.displayName == "" {
        return BadRequest;
      }
      names := names[id := body.displayName];
      Reconcile(id, body.members);
      SetExternalID(id, body.externalId);
      status := Done;
    }

    // PATCH: the operations in order, then the name and external id are saved.
    method PatchGroup(id: string, ops: seq<Op>) returns (status: Status)
      requires Valid()
      modifies this
      ensures Valid()
      ensures status == if id !in old(names) then NotFound else Done
      ensures status.Done? ==> id in names && View(id) == Patched(old(View(id)), ops, users)
      ensures !status.Done? ==> names == old(names) && external == old(external) && edges == old(edges)
      ensures forall g :: g in old(names) && g != id ==> g in names && View(g) == old(View(g))
    {
      if id !in names {
        return NotFound;
      }
      var name, ext := names[id], External(id);
      for i := 0 to |ops|
        invariant Valid() && names == old(names) && external == old(external)
        invariant Group(name, ext, Members(id)) == Patched(old(View(id)), ops[..i], users)
        invariant forall g :: g != id ==> Members(g) == old(Members(g))
      {
        assert ops[..i + 1][..i] == ops[..i];
        name, ext := ApplyGroupOp(id, ops[i], name, ext);
      }
      assert ops[..|ops|] == ops;
      names := names[id := name];
      SetExternalID(id, ext);
      status := Done;
    }

    method ApplyGroupOp(id: string, op: Op, name: string, ext: string) returns (name': string, ext': string)
      requires Valid() && id in names
      modifies this`edges
      ensures Valid()
      ensures Group(name', ext', Members(id)) == PatchStep(Group(name, ext, old(Members(id))), op, users)
      ensures forall g :: g != id ==> Members(g) == old(Members(g))
    {
      name', ext' := name, ext;
      var remove := EqualFold(op.op, "remove");
      if EqualFold(op.path, "displayName") {
        if !remove {
          name' := AsString(op.value);
        }
        return;
      }
      if EqualFold(op.path, "externalId") {
        ext' := if remove then "" else AsString(op.value);
        return;
      }
      var one := MemberId(op.path);
      if one.Some? {
        RemoveGroupMember(id, one.value);
        Without(old(edges), id, one.value);
        return;
      }
      if !NamesMembers(op.path) {
        return;
      }
      hide MemberId, NamesMembers, EqualFold;
      if !op.value.List? && !op.value.Null? {
        if remove {
          RemoveAll(id);
        }
        return;
      }
      var members := if op.value.List? then op.value.ids else [];
      if remove && members == [] {
        RemoveAll(id);
        return;
      }
      ChangeMembers(id, members, remove);
    }

    method RemoveAll(id: string)
      requires Valid()
      modifies this`edges
      ensures Valid() && Members(id) == {}
      ensures forall g :: g != id ==> Members(g) == old(Members(g))
    {
      var current := ListGroupMembers(id);
      assert forall u :: u in Members(id) <==> (id, u) in edges;
      for i := 0 to |current|
        invariant Valid() && edges == old(edges) - set u | u in current[..i] :: (id, u)
      {
        RemoveGroupMember(id, current[i]);
      }
      assert current[..|current|] == current;
      assert forall u :: (id, u) in old(edges) ==> u in current;
      SameElsewhere(old(edges), edges, id);
    }

    method ChangeMembers(id: string, ids: seq<string>, remove: bool)
      requires Valid() && id in names
      modifies this`edges
      ensures Valid()
      ensures Members(id) == if remove then old(Members(id)) - (set v | v in ids)
                             else old(Members(id)) + (set v | v in ids && v in users)
      ensures forall g :: g != id ==> Members(g) == old(Members(g))
    {
      for i := 0 to |ids|
        invariant Valid()
        invariant edges == if remove then old(edges) - (set v | v in ids[..i] :: (id, v))
                           else old(edges) + (set v | v in ids[..i] && v in users :: (id, v))
      {
        if remove {
          RemoveGroupMember(id, ids[i]);
        } else {
          AddGroupMember(id, ids[i]);
        }
      }
      assert ids[..|ids|] == ids;
      forall u
        ensures u in Members(id) <==> (id, u) in edges
        ensures u in old(Members(id)) <==> (id, u) in old(edges)
      {
      }
      SameElsewhere(old(edges), edges, id);
    }

    lemma Without(before: set<(string, string)>, group: string, user: string)
      ensures MembersIn(before - {(group, user)}, group) == MembersIn(before, group) - {user}
      ensures forall g :: g != group ==> MembersIn(before - {(group, user)}, g) == MembersIn(before, g)
    {
    }
  }

  // ---- What an operation is about ----

  // Whatever the verb, a path names one part of the group, in any case, and an
  // operation changes that part alone: removing the name changes nothing,
  // removing the external id clears it, and any other verb sets either to the
  // text, or to nothing when the value is no text.
  lemma OperationMeaning(g: Group, op: Op, users: set<string>)
    ensures var r, remove := PatchStep(g, op, users), ToLower(op.op) == "remove";
            var text := if op.value.Text? then op.value.text else "";
            if ToLower(op.path) == "displayname" then r == g.(name := if remove then g.name else text)
            else if ToLower(op.path) == "externalid" then r == g.(ext := if remove then "" else text)
            else
              && r.name == g.name && r.ext == g.ext
              && (MemberId(op.path).None? && op.path != "" && ToLower(TrimSpace(Split(op.path, '[')[0])) != "members"
                  ==> r == g)
  {
    assert ToLower("remove") == "remove" && ToLower("members") == "members";
    assert ToLower("displayName") == "displayname" && ToLower("externalId") == "externalid";
    hide ToLower, MemberId, TrimSpace, Split, MembersAfter;
  }

  lemma {:induction false} NoFilterIn(path: string, i: nat)
    requires i <= |path| && |path| < |FILTER|
    ensures MemberIdFrom(path, i).None?
    decreases |path| - i
  {
    if i < |path| {
      NoFilterIn(path, i + 1);
    }
  }

  // No path at all, or "members" in any case with blanks around it.
  ghost predicate PlainMembers(path: string) {
    path == "" || exists before, name, after :: PathOf(path, before, name, after)
  }

  ghost predicate PathOf(path: string, before: string, name: string, after: string) {
    && path == before + name + after && ToLower(name) == "members" && |path| < |FILTER|
    && (forall i :: 0 <= i < |before| ==> IsSpace(before[i])) && (forall i :: 0 <= i < |after| ==> IsSpace(after[i]))
  }

  lemma NameHasNoBlank(name: string)
    requires ToLower(name) == "members"
    ensures |name| == 7 && forall i :: 0 <= i < |name| ==> name[i] != '[' && !IsSpace(name[i])
  {
    forall i | 0 <= i < |name|
      ensures name[i] != '[' && !IsSpace(name[i])
    {
      assert LowerChar(name[i]) == "members"[i];
    }
  }

  lemma PlainPathIsMembers(path: string)
    requires PlainMembers(path)
    ensures NamesMembers(path) && MemberId(path).None?
  {
    NoFilterIn(path, 0);
    if path != "" {
      var before, name, after :| PathOf(path, before, name, after);
      NameHasNoBlank(name);
      BlanksAround(before, name, after);
      assert '[' !in before && '[' !in after && '[' !in path;
      SplitSegment(path, '[');
    }
  }

  lemma MembersIsNoOther(path: string)
    requires PlainMembers(path)
    ensures ToLower(path) != "displayname" && ToLower(path) != "externalid"
  {
    if path != "" {
      var before, name, after :| PathOf(path, before, name, after);
      NameHasNoBlank(name);
      assert forall i :: 0 <= i < |name| ==> path[|before| + i] == name[i];
      if before != "" {
        assert ToLower(path)[0] == LowerChar(path[0]) == path[0];
      } else {
        assert ToLower(path)[0] == LowerChar(name[0]) == ToLower(name)[0] == 'm';
      }
    }
  }

  // On such a path the members listed are added, if they are users, or taken
  // out; a removal that lists nobody takes out all.
  lemma MembersMeaning(g: Group, op: Op, users: set<string>, m: string)
    requires PlainMembers(op.path)
    ensures var r := PatchStep(g, op, users);
            var listed := op.value.List? && m in op.value.ids;
            var nobody := !op.value.List? || op.value.ids == [];
            m in r.members <==> if ToLower(op.op) == "remove" then m in g.members && !nobody && !listed
                                else m in g.members || (listed && m in users)
  {
    assert ToLower("remove") == "remove";
    assert ToLower("displayName") == "displayname" && ToLower("externalId") == "externalid";
    PlainPathIsMembers(op.path);
    MembersIsNoOther(op.path);
    hide ToLower, NamesMembers, MemberId, PlainMembers;
  }

  // ---- What the two verbs promise ----

  predicate Membership(op: Op) {
    && !EqualFold(op.path, "displayName") && !EqualFold(op.path, "externalId")
    && MemberId(op.path).None? && NamesMembers(op.path)
  }

  // An operation that submits a list adds to the membership; it replaces it,
  // as PUT would, exactly when nobody listed before is missing from the list.
  lemma PatchReplacesIff(g: Group, op: Op, users: set<string>)
    requires Membership(op) && op.value.List? && !EqualFold(op.op, "remove") && "" !in users
    ensures PatchStep(g, op, users).members == g.members + Wanted(op.value.ids, users)
    ensures PatchStep(g, op, users) == g.(members := Wanted(op.value.ids, users))
            <==> g.members <= Wanted(op.value.ids, users)
  {
    hide EqualFold, MemberId, NamesMembers;
    var listed := set v | v in op.value.ids && v in users;
    assert listed == Wanted(op.value.ids, users);
  }

  lemma FirstCharDiffers(a: string, b: string)
    requires a != "" && b != "" && LowerChar(a[0]) != LowerChar(b[0])
    ensures !EqualFold(a, b)
  {
    assert ToLower(a)[0] != ToLower(b)[0];
  }

  // With two users, replacing one by the other keeps both.
  lemma ReplaceKeepsOldMember()
    ensures var op := Op("replace", "members", List(["b"]));
            PatchStep(Group("g", "", {"a"}), op, {"a", "b"}).members == {"a", "b"}
  {
    var op := Op("replace", "members", List(["b"]));
    MembersPathIsMembership();
    FirstCharsApart("replace", "remove");
    PatchReplacesIff(Group("g", "", {"a"}), op, {"a", "b"});
    assert Wanted(["b"], {"a", "b"}) == {"b"};
    hide PatchStep, Wanted;
  }

  lemma FirstCharsApart(a: string, b: string)
    requires |a| > 2 && |b| > 2 && LowerChar(a[2]) != LowerChar(b[2])
    ensures !EqualFold(a, b)
  {
    assert ToLower(a)[2] != ToLower(b)[2];
  }

  lemma MembersPathIsMembership()
    ensures NamesMembers("members") && MemberId("members").None?
    ensures !EqualFold("members", "displayName") && !EqualFold("members", "externalId")
  {
    FirstCharDiffers("members", "displayName");
    FirstCharDiffers("members", "externalId");
    SplitSegment("members", '[');
    NoFilterIn("members", 0);
  }

  // A removal takes out the members it lists and nobody else, unless it lists
  // nobody: then it takes out everybody.
  lemma RemovesListedIff(g: Group, op: Op, users: set<string>)
    requires Membership(op) && op.value.List? && EqualFold(op.op, "remove")
    ensures PatchStep(g, op, users).members == g.members - (set v | v in op.value.ids)
            <==> op.value.ids != [] || g.members == {}
  {
    hide EqualFold, MemberId, NamesMembers;
    if op.value.ids == [] {
      assert (set v | v in op.value.ids) == {};
    }
  }

  // Removing an empty list of members clears the group.
  lemma RemovingNobodyClears()
    ensures var op := Op("remove", "members", List([]));
            PatchStep(Group("g", "", {"a"}), op, {"a"}).members == {}
  {
    MembersPathIsMembership();
    hide MemberId, NamesMembers;
  }

  // Clearing first makes a PATCH replace the membership.
  lemma ClearThenAddReplaces(g: Group, clear: Op, add: Op, users: set<string>)
    requires Membership(clear) && EqualFold(clear.op, "remove") && !(clear.value.List? && clear.value.ids != [])
    requires Membership(add) && !EqualFold(add.op, "remove") && add.value.List? && "" !in users
    ensures Patched(g, [clear, add], users) == g.(members := Wanted(add.value.ids, users))
  {
    var ops := [clear, add];
    assert ops[..1] == [clear] && [clear][..0] == [];
    assert Patched(g, [], users) == g;
    assert Patched(g, [clear], users) == PatchStep(g, clear, users);
    var cleared := PatchStep(g, clear, users);
    assert cleared == g.(members := {}) by {
      hide EqualFold, MemberId, NamesMembers;
    }
    PatchReplacesIff(cleared, add, users);
  }

  // The filter path takes out the member it names and nobody else.
  lemma FilterNamesMember(id: string)
    requires id != "" && '\"' !in id
    ensures MemberId(FILTER + id + "\"]") == Some(id)
  {
    var rest := id + "\"]";
    var path := FILTER + rest;
    assert path == FILTER + id + "\"]";
    assert path[|FILTER|..] == rest;
    assert OccursAt(path, FILTER, 0);
    assert rest[|id|..|id| + 1] == "\"";
    forall j: nat | j < |id|
      ensures !OccursAt(rest, "\"", j)
    {
      assert rest[j..j + 1] == [id[j]];
      assert id[j] in id;
    }
    FirstIndex(rest, "\"", |id|);
    assert rest[..|id|] == id;
  }

  // The path names a member exactly when the filter on an id stands somewhere in
  // it, and then such an id.
  lemma MemberIdMeaning(path: string)
    ensures var found := MemberId(path);
            && (found.Some? ==> found.value != "" && '\"' !in found.value
                                && Contains(path, FILTER + found.value + "\"]"))
            && (forall id :: id != "" && '\"' !in id && Contains(path, FILTER + id + "\"]") ==> found.Some?)
  {
    SomeMember(path, 0);
    forall id | id != "" && '\"' !in id && Contains(path, FILTER + id + "\"]")
      ensures MemberId(path).Some?
    {
      var i :| OccursAt(path, FILTER + id + "\"]", i);
      MemberHere(path, id, i);
      MemberFound(path, 0, i);
    }
  }

  lemma MemberHere(path: string, id: string, i: nat)
    requires id != "" && '\"' !in id && OccursAt(path, FILTER + id + "\"]", i)
    ensures MemberIdAt(path, i) == Some(id)
  {
    var pat := FILTER + id + "\"]";
    var rest := path[i + |FILTER|..];
    assert path[i..i + |pat|] == pat;
    assert path[i..i + |FILTER|] == pat[..|FILTER|] == FILTER;
    assert forall k :: 0 <= k < |id| + 2 ==> rest[k] == pat[|FILTER| + k] == (id + "\"]")[k];
    assert rest[|id|..|id| + 1] == "\"";
    forall j: nat | j < |id|
      ensures !OccursAt(rest, "\"", j)
    {
      assert rest[j..j + 1] == [id[j]] && id[j] in id;
    }
    FirstIndex(rest, "\"", |id|);
    assert rest[..|id|] == id;
  }

  lemma {:induction false} MemberFound(path: string, i: nat, at: nat)
    requires i <= at <= |path| && MemberIdAt(path, at).Some?
    ensures MemberIdFrom(path, i).Some?
    decreases at - i
  {
    if i < at && MemberIdAt(path, i).None? {
      MemberFound(path, i + 1, at);
    }
  }

  lemma {:induction false} SomeMember(path: string, i: nat)
    requires i <= |path|
    ensures var found := MemberIdFrom(path, i);
            found.Some? ==> found.value != "" && '\"' !in found.value
                            && Contains(path, FILTER + found.value + "\"]")
    decreases |path| - i
  {
    var here := MemberIdAt(path, i);
    if here.Some? {
      MemberAt(path, i);
    } else if i < |path| {
      SomeMember(path, i + 1);
    }
  }

  lemma MemberAt(path: string, i: nat)
    requires i <= |path| && MemberIdAt(path, i).Some?
    ensures var id := MemberIdAt(path, i).value;
            id != "" && '\"' !in id && OccursAt(path, FILTER + id + "\"]", i)
  {
    var id, rest := MemberIdAt(path, i).value, path[i + |FILTER|..];
    var q := FirstQuote(rest).value;
    assert rest[q..q + 1] == "\"";
    forall j | 0 <= j < |id|
      ensures id[j] != '\"'
    {
      assert rest[j..j + 1] == [id[j]];
      assert !OccursAt(rest, "\"", j);
    }
    var pat := FILTER + id + "\"]";
    assert path[i..i + |FILTER|] == FILTER;
    assert path[i..i + |pat|] == pat;
  }

  lemma FilterRemovesOne(g: Group, op: Op, id: string, users: set<string>)
    requires id != "" && '\"' !in id && op.path == FILTER + id + "\"]"
    ensures PatchStep(g, op, users) == g.(members := g.members - {id})
  {
    FilterNamesMember(id);
    assert op.path[0] == 'm';
    FirstCharDiffers(op.path, "displayName");
    FirstCharDiffers(op.path, "externalId");
    hide EqualFold, MemberId;
  }

  // No PATCH brings in anybody who is not a user.
  lemma {:induction false} PatchAdmitsUsersOnly(g: Group, ops: seq<Op>, users: set<string>)
    requires g.members <= users
    ensures Patched(g, ops, users).members <= users
  {
    if ops != [] {
      PatchAdmitsUsersOnly(g, ops[..|ops| - 1], users);
      hide EqualFold, MemberId, NamesMembers;
    }
  }
}
