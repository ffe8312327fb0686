/** The Graph permission gate, which reads the folded request path and switches on
    its first resource segment, case and all. */
module GraphGate {
  import opened Strings
  import opened Escaping
  import opened RouteOrder
  import opened CaseFold

  datatype Perms = Perms(delegated: seq<string>, app: seq<string>)

  const NO_REQUIREMENT := Perms([], [])

  predicate IsWrite(verb: string) {
    verb != "GET" && verb != "HEAD"
  }

  function Both(names: seq<string>): Perms {
    Perms(names, names)
  }

  // The permissions that satisfy one operation on a resource family.
  function FamilyRequirement(verb: string, head: string): Perms {
    var directoryRead := ["Directory.Read.All", "Directory.ReadWrite.All"];
    var directoryWrite := ["Directory.ReadWrite.All"];
    if head == "me" then
      Perms(["User.Read", "User.ReadWrite", "User.ReadBasic.All", "User.Read.All", "User.ReadWrite.All"]
            + directoryRead, [])
    else if head == "users" then
      if IsWrite(verb) then Both(["User.ReadWrite.All"] + directoryWrite)
      else Perms(["User.ReadBasic.All", "User.Read.All", "User.ReadWrite.All"] + directoryRead,
                 ["User.Read.All", "User.ReadWrite.All"] + directoryRead)
    else if head == "groups" then
      if IsWrite(verb) then Both(["Group.ReadWrite.All"] + directoryWrite)
      else Both(["Group.Read.All", "Group.ReadWrite.All"] + directoryRead)
    else if head == "applications" || head == "servicePrincipals" then
      if IsWrite(verb) then Both(["Application.ReadWrite.All"] + directoryWrite)
      else Both(["Application.Read.All", "Application.ReadWrite.All"] + directoryRead)
    else if head == "invitations" then
      Both(["User.Invite.All", "User.ReadWrite.All"] + directoryWrite)
    else if head == "roleManagement" then
      if IsWrite(verb) then Both(["RoleManagement.ReadWrite.Directory"] + directoryWrite)
      else Both(["RoleManagement.Read.Directory", "RoleManagement.ReadWrite.Directory"] + directoryRead)
    else if head == "directory" then
      if IsWrite(verb) then Both(directoryWrite) else Both(directoryRead)
    else if head == "oauth2PermissionGrants" then
      Both(["DelegatedPermissionGrant.ReadWrite.All"] + (if IsWrite(verb) then directoryWrite else directoryRead))
    else NO_REQUIREMENT
  }

  // The resource path up to its first slash.
  function Head(resource: string): string {
    var slash := Index(resource, "/");
    if slash.Some? then resource[..slash.value] else resource
  }

  function GraphRequirement(verb: string, resource: string): Perms {
    FamilyRequirement(verb, Head(resource))
  }

  function ResourcePath(path: string): Option<string> {
    var i := Index(path, "/v1.0/");
    if i.Some? then Some(path[i.value + 6..]) else None
  }

  datatype Token = Token(oid: string, scopes: seq<string>, roles: seq<string>)

  predicate HasAny(have: seq<string>, want: seq<string>) {
    exists w :: w in want && w in have
  }

  predicate Allowed(enforced: bool, verb: string, path: string, token: Token) {
    !enforced ||
    var resource := ResourcePath(path);
    resource.None? ||
    var req := GraphRequirement(verb, resource.value);
    if token.oid != "" then req.delegated == [] || HasAny(token.scopes, req.delegated)
    else req.app == [] || HasAny(token.roles, req.app)
  }

  predicate IsMount(prefix: string) {
    prefix == "" || prefix == "/graph"
  }

  lemma HeadOfLiteral(text: string, rest: string)
    requires '/' !in text
    ensures Head(text) == text
    ensures Head(text + "/" + rest) == text
  {
    forall j: nat
      ensures !OccursAt(text, "/", j)
    {
      if j < |text| { assert text[j..j + 1] == [text[j]]; }
    }
    var s := text + "/" + rest;
    assert s[|text|..|text| + 1] == "/";
    forall j: nat | j < |text|
      ensures !OccursAt(s, "/", j)
    {
      assert s[j..j + 1] == [text[j]];
    }
    FirstIndex(s, "/", |text|);
  }

  lemma ResourceUnderMount(prefix: string, resource: string)
    requires IsMount(prefix)
    ensures ResourcePath(prefix + "/v1.0/" + resource) == Some(resource)
  {
    var path := prefix + "/v1.0/" + resource;
    assert path[|prefix|..|prefix| + 6] == "/v1.0/";
    forall j: nat | j < |prefix|
      ensures !OccursAt(path, "/v1.0/", j)
    {
      assert j + 6 <= |path| && path[j..j + 6][0] == path[j] && path[j..j + 6][1] == path[j + 1];
    }
    FirstIndex(path, "/v1.0/", |prefix|);
    assert path[|prefix| + 6..] == resource;
  }

  // The decoded path of a rewritten request, when its resource segment is a
  // registered literal.
  lemma DecodedCanonical(prefix: string, canon: seq<string>)
    requires IsMount(prefix) && |canon| >= 2 && canon[0] == VERSION
    requires '%' !in canon[1] && PathUnescape(Mount(prefix, canon)).Some?
    ensures var path := PathUnescape(Mount(prefix, canon)).value;
            exists tail :: path == prefix + "/v1.0/" + tail
                           && (tail == canon[1] || exists rest :: tail == canon[1] + "/" + rest)
  {
    var joined := Join(canon, '/');
    PlainUnescape(prefix);
    PlainUnescape(VERSION);
    PlainUnescape(canon[1]);
    UnescapeAcross(prefix, joined, '/');
    UnescapeAcross(VERSION, Join(canon[1..], '/'), '/');
    var path := PathUnescape(Mount(prefix, canon)).value;
    var tail := PathUnescape(Join(canon[1..], '/')).value;
    assert path == prefix + "/v1.0/" + tail;
    if |canon| > 2 {
      UnescapeAcross(canon[1], Join(canon[2..], '/'), '/');
      assert canon[1..][1..] == canon[2..];
      var rest := PathUnescape(Join(canon[2..], '/')).value;
      assert tail == canon[1] + "/" + rest;
    }
  }

  // Whatever the spelling of the request, and whatever its wildcard segments
  // hold, the gate asks for the permissions of the registered resource name.
  lemma GateAsksByRegisteredName(prefix: string, pats: seq<Pattern>, verb: string, escaped: string)
    requires WellFormed(pats) && IsMount(prefix)
    requires Versioned(prefix, escaped) && PathUnescape(escaped).Some?
    requires var p := Best(pats, verb, Segments(prefix, escaped)); p.Some? && p.value.segs[1].Lit?
    ensures var p := Best(pats, verb, Segments(prefix, escaped)).value;
            var path := PathUnescape(FoldPath(prefix, pats, verb, escaped));
            && path.Some?
            && ResourcePath(path.value).Some?
            && GraphRequirement(verb, ResourcePath(path.value).value) == FamilyRequirement(verb, p.segs[1].text)
  {
    var segments := Segments(prefix, escaped);
    var p := Best(pats, verb, segments).value;
    var k :| 0 <= k < |pats| && pats[k] == p;
    assert PlainLiteral(pats[k].segs[1]);
    var canon := Rewrite(p.segs, segments);
    RewriteDecodes(prefix, pats, p, escaped);
    FoldPathSegments(prefix, pats, verb, escaped);
    DecodedCanonical(prefix, canon);
    var tail :| PathUnescape(Mount(prefix, canon)).value == prefix + "/v1.0/" + tail
                && (tail == canon[1] || exists rest :: tail == canon[1] + "/" + rest);
    ResourceUnderMount(prefix, tail);
    if tail == canon[1] {
      HeadOfLiteral(canon[1], "");
    } else {
      var rest :| tail == canon[1] + "/" + rest;
      HeadOfLiteral(canon[1], rest);
    }
  }

  // So two spellings of a request get one verdict from the gate.
  lemma OneVerdictForAllSpellings(prefix: string, pats: seq<Pattern>, verb: string, a: string, b: string, token: Token)
    requires WellFormed(pats) && IsMount(prefix)
    requires Versioned(prefix, a) && PathUnescape(a).Some? && Versioned(prefix, b) && PathUnescape(b).Some?
    requires var p := Best(pats, verb, Segments(prefix, a));
             p.Some? && p.value.segs[1].Lit? && MatchesFolded(p.value.segs, Segments(prefix, b))
    requires Best(pats, verb, Segments(prefix, b)) == Best(pats, verb, Segments(prefix, a))
    ensures var x, y := PathUnescape(FoldPath(prefix, pats, verb, a)), PathUnescape(FoldPath(prefix, pats, verb, b));
            x.Some? && y.Some? && (Allowed(true, verb, x.value, token) <==> Allowed(true, verb, y.value, token))
  {
    GateAsksByRegisteredName(prefix, pats, verb, a);
    GateAsksByRegisteredName(prefix, pats, verb, b);
  }

  // Without the rewriting the gate would let any token through on a spelling it
  // does not know, where the registered spelling refuses a token with no scope.
  lemma UnfoldedSpellingSkipsTheGate(token: Token)
    ensures Allowed(true, "GET", "" + "/v1.0/" + "USERS", token)
    ensures !Allowed(true, "GET", "" + "/v1.0/" + "users", Token("alice", [], []))
  {
    ResourceUnderMount("", "USERS");
    HeadOfLiteral("USERS", "");
    UnknownName("GET", "USERS");
    ResourceUnderMount("", "users");
    HeadOfLiteral("users", "");
    ReadUsersIsGuarded();
  }

  lemma UnknownName(verb: string, head: string)
    requires head != "" && 'A' <= head[0] <= 'Z'
    ensures FamilyRequirement(verb, head) == NO_REQUIREMENT
  {}

  lemma ReadUsersIsGuarded()
    ensures FamilyRequirement("GET", "users").delegated != []
  {}

  // ---- Who is let through ----

  // The permissions any one of which lets an operation through.
  function Accepted(write: bool, head: string, delegated: bool): set<string> {
    if head == "me" then
      if delegated then {"User.Read", "User.ReadWrite", "User.ReadBasic.All", "User.Read.All", "User.ReadWrite.All",
                         "Directory.Read.All", "Directory.ReadWrite.All"} else {}
    else if head == "invitations" then {"User.Invite.All", "User.ReadWrite.All", "Directory.ReadWrite.All"}
    else if head !in {"users", "groups", "applications", "servicePrincipals", "roleManagement", "directory",
                      "oauth2PermissionGrants"} then {}
    else
      var own := if head == "users" then {"User.ReadWrite.All"}
                 else if head == "groups" then {"Group.ReadWrite.All"}
                 else if head == "roleManagement" then {"RoleManagement.ReadWrite.Directory"}
                 else if head == "oauth2PermissionGrants" then {"DelegatedPermissionGrant.ReadWrite.All"}
                 else if head == "directory" then {} else {"Application.ReadWrite.All"};
      var reading := if head == "users" then {"User.Read.All"} + if delegated then {"User.ReadBasic.All"} else {}
                     else if head == "groups" then {"Group.Read.All"}
                     else if head == "roleManagement" then {"RoleManagement.Read.Directory"}
                     else if head == "oauth2PermissionGrants" || head == "directory" then {}
                     else {"Application.Read.All"};
      own + {"Directory.ReadWrite.All"} + if write then {} else reading + {"Directory.Read.All"}
  }

  const HEADS := ["me", "users", "groups", "applications", "servicePrincipals", "invitations", "roleManagement",
                  "directory", "oauth2PermissionGrants"]

  ghost predicate SamePermissions(verb: string, head: string, delegated: bool) {
    var req := FamilyRequirement(verb, head);
    var names := if delegated then req.delegated else req.app;
    forall p :: p in names <==> p in Accepted(verb != "GET" && verb != "HEAD", head, delegated)
  }

  lemma RequirementOfDirectory(verb: string, i: nat, delegated: bool)
    requires 1 <= i < 3
    ensures SamePermissions(verb, HEADS[i], delegated)
  {
    if i == 1 {
    } else {
    }
  }

  lemma RequirementOfMe(verb: string, delegated: bool)
    ensures SamePermissions(verb, HEADS[0], delegated)
  {}

  lemma RequirementOfApps(verb: string, i: nat, delegated: bool)
    requires 3 <= i < 6
    ensures SamePermissions(verb, HEADS[i], delegated)
  {
    if i == 3 {
    } else if i == 4 {
    } else {
    }
  }

  lemma RequirementOfRoles(verb: string, i: nat, delegated: bool)
    requires 6 <= i < 9
    ensures SamePermissions(verb, HEADS[i], delegated)
  {
    if i == 6 {
    } else if i == 7 {
    } else {
    }
  }

  lemma RequirementIsAccepted(verb: string, head: string, delegated: bool)
    ensures SamePermissions(verb, head, delegated)
  {
    if i: nat :| i < |HEADS| && HEADS[i] == head {
      hide SamePermissions;
      if i == 0 {
        RequirementOfMe(verb, delegated);
      } else if i < 3 {
        RequirementOfDirectory(verb, i, delegated);
      } else if i < 6 {
        RequirementOfApps(verb, i, delegated);
      } else {
        RequirementOfRoles(verb, i, delegated);
      }
    } else {
      UnknownHead(verb, head);
      hide FamilyRequirement, Accepted;
    }
  }

  lemma UnknownHead(verb: string, head: string)
    requires head !in HEADS
    ensures FamilyRequirement(verb, head) == NO_REQUIREMENT
    ensures forall write, delegated :: Accepted(write, head, delegated) == {}
  {
    assert HEADS[0] == "me" && HEADS[1] == "users" && HEADS[2] == "groups" && HEADS[3] == "applications"
        && HEADS[4] == "servicePrincipals" && HEADS[5] == "invitations" && HEADS[6] == "roleManagement"
        && HEADS[7] == "directory" && HEADS[8] == "oauth2PermissionGrants";
  }

  // With enforcement on, a delegated token is judged by its scopes and an
  // app-only token by its roles: one permission of the operation is enough, and
  // an operation nobody has listed asks for none.
  lemma AllowedIff(verb: string, path: string, token: Token)
    ensures Allowed(false, verb, path, token)
    ensures ResourcePath(path).None? ==> Allowed(true, verb, path, token)
    ensures ResourcePath(path).Some? ==>
              var delegated := token.oid != "";
              var accepted := Accepted(verb != "GET" && verb != "HEAD", Head(ResourcePath(path).value), delegated);
              Allowed(true, verb, path, token)
              <==> accepted == {} || exists p :: p in accepted && p in (if delegated then token.scopes else token.roles)
  {
    if ResourcePath(path).Some? {
      var head := Head(ResourcePath(path).value);
      RequirementIsAccepted(verb, head, true);
      RequirementIsAccepted(verb, head, false);
      var req := FamilyRequirement(verb, head);
      EmptyAlike(req.delegated, Accepted(verb != "GET" && verb != "HEAD", head, true));
      EmptyAlike(req.app, Accepted(verb != "GET" && verb != "HEAD", head, false));
    }
    hide FamilyRequirement, Accepted, Head, ResourcePath;
  }

  lemma EmptyAlike(s: seq<string>, t: set<string>)
    requires forall p :: p in s <==> p in t
    ensures s == [] <==> t == {}
  {
    if s != [] {
      assert s[0] in t;
    }
  }

  // Whoever may change a resource may read it.
  lemma WriterMayRead(verb: string, path: string, token: Token)
    requires Allowed(true, verb, path, token)
    ensures Allowed(true, "GET", path, token)
  {
    AllowedIff(verb, path, token);
    AllowedIff("GET", path, token);
    if ResourcePath(path).Some? {
      ReadingTakesMore(verb, Head(ResourcePath(path).value), token.oid != "");
    }
    hide Allowed, Accepted, Head, ResourcePath;
  }

  lemma ReadingTakesMore(verb: string, head: string, delegated: bool)
    ensures var write := verb != "GET" && verb != "HEAD";
            && Accepted(write, head, delegated) <= Accepted(false, head, delegated)
            && (Accepted(write, head, delegated) == {} ==> Accepted(false, head, delegated) == {})
  {
    assert "Directory.ReadWrite.All" in Accepted(true, "users", delegated);
    var write := verb != "GET" && verb != "HEAD";
    assert Accepted(write, head, delegated) != {} ==> "Directory.ReadWrite.All" in Accepted(write, head, delegated);
    assert Accepted(false, head, delegated) != {} ==> "Directory.ReadWrite.All" in Accepted(true, head, delegated);
  }

  const READS := {"User.Read", "User.Read.All", "User.ReadBasic.All", "Group.Read.All", "Application.Read.All",
                  "RoleManagement.Read.Directory", "Directory.Read.All"}

  lemma NoReadsAccepted(head: string, delegated: bool)
    requires head != "me"
    ensures forall p :: p in Accepted(true, head, delegated) ==> p !in READS
  {}

  // Read permissions alone change nothing but what belongs to the signed-in
  // user.
  lemma ReaderMayNotWrite(verb: string, path: string, token: Token)
    requires verb != "GET" && verb != "HEAD" && ResourcePath(path).Some?
    requires var head := Head(ResourcePath(path).value);
             head != "me" && Accepted(true, head, token.oid != "") != {}
    requires forall p :: p in token.scopes || p in token.roles ==> p in READS
    ensures !Allowed(true, verb, path, token)
  {
    var head, delegated := Head(ResourcePath(path).value), token.oid != "";
    AllowedIff(verb, path, token);
    NoReadsAccepted(head, delegated);
    hide Allowed, Head, ResourcePath, Accepted;
  }
}
