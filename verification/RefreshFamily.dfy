/** Refresh-token storage of internal/store/grants.go and its redemption in
    internal/tokens/service.go: rotation by compare-and-set, and revocation of a
    whole rotation chain by a worklist over parent and child links. */
module RefreshFamily {
  import opened Strings

  // What a chain carries from the sign-in that started it.
  datatype Grant = Grant(user: string, scopes: seq<string>, resource: string, amr: string, authTime: int, code: string)

  // A token is stored as its hash; parent is "" for the first of a chain.
  datatype Row = Row(hash: string, app: string, grant: Grant, expires: int, parent: string, revoked: bool)

  // ---- The table, in insertion order ----

  ghost predicate Unique(rows: seq<Row>) {
    forall i, j :: 0 <= i < j < |rows| ==> rows[i].hash != rows[j].hash
  }

  function Find(rows: seq<Row>, hash: string): (r: Option<nat>)
    ensures r.Some? ==> r.value < |rows| && rows[r.value].hash == hash
    ensures r.None? ==> forall i :: 0 <= i < |rows| ==> rows[i].hash != hash
  {
    if rows == [] then None
    else if rows[|rows| - 1].hash == hash then Some(|rows| - 1)
    else Find(rows[..|rows| - 1], hash)
  }

  // Where the i-th row's predecessor is.
  ghost predicate ParentAt(rows: seq<Row>, i: nat, j: nat)
    requires i < |rows|
  {
    j < i && rows[j].hash == rows[i].parent
  }

  ghost predicate Linked(rows: seq<Row>) {
    && Unique(rows)
    && (forall i :: 0 <= i < |rows| ==> rows[i].hash != "")
    && forall i :: 0 <= i < |rows| && rows[i].parent != "" ==> exists j: nat :: ParentAt(rows, i, j)
  }

  ghost function Parent(rows: seq<Row>, i: nat): (j: nat)
    requires Linked(rows) && i < |rows| && rows[i].parent != ""
    ensures ParentAt(rows, i, j)
  {
    var j: nat :| ParentAt(rows, i, j);
    j
  }

  // The first token of the chain.
  ghost function Root(rows: seq<Row>, i: nat): (r: nat)
    requires Linked(rows) && i < |rows|
    ensures r <= i && rows[r].parent == ""
    decreases i
  {
    if rows[i].parent == "" then i else Root(rows, Parent(rows, i))
  }

  ghost predicate Related(rows: seq<Row>, hash: string, i: nat)
    requires Linked(rows) && i < |rows|
  {
    exists j :: 0 <= j < |rows| && rows[j].hash == hash && Root(rows, j) == Root(rows, i)
  }

  lemma RootOfChild(rows: seq<Row>, i: nat, j: nat)
    requires Linked(rows) && i < |rows| && j < |rows| && rows[i].parent != "" && rows[j].hash == rows[i].parent
    ensures j < i && Root(rows, i) == Root(rows, j)
  {
    var p := Parent(rows, i);
    assert p == j;
  }

  // ---- Revoking ----

  function Marked(rows: seq<Row>, hashes: set<string>): (r: seq<Row>)
    ensures |r| == |rows|
    ensures forall i :: 0 <= i < |rows| ==>
              r[i] == if rows[i].hash in hashes then rows[i].(revoked := true) else rows[i]
  {
    seq(|rows|, i requires 0 <= i < |rows| =>
      if rows[i].hash in hashes then rows[i].(revoked := true) else rows[i])
  }

  ghost function FamilyRevoked(rows: seq<Row>, hash: string): (r: seq<Row>)
    requires Linked(rows)
    ensures |r| == |rows|
    ensures forall i :: 0 <= i < |rows| ==>
              r[i] == if Related(rows, hash, i) then rows[i].(revoked := true) else rows[i]
  {
    seq(|rows|, i requires 0 <= i < |rows| =>
      if Related(rows, hash, i) then rows[i].(revoked := true) else rows[i])
  }

  function CodeRevoked(rows: seq<Row>, code: string): (r: seq<Row>)
    ensures |r| == |rows|
    ensures forall i :: 0 <= i < |rows| ==>
              r[i] == if code != "" && rows[i].grant.code == code then rows[i].(revoked := true) else rows[i]
  {
    seq(|rows|, i requires 0 <= i < |rows| =>
      if code != "" && rows[i].grant.code == code then rows[i].(revoked := true) else rows[i])
  }

  // ---- Rotating ----

  // What a redemption by app stores in place of row.
  function Successor(row: Row, app: string, hash: string, expires: int): Row {
    Row(hash, app, row.grant, expires, row.hash, false)
  }

  function Rotated(rows: seq<Row>, i: nat, next: Row): seq<Row>
    requires i < |rows|
  {
    rows[i := rows[i].(revoked := true)] + [next]
  }

  datatype Outcome = Won | Lost | Failed

  // What one compare-and-set rotation comes to.
  function RotateOutcome(rows: seq<Row>, hash: string, next: Row): Outcome {
    var at := Find(rows, hash);
    if at.None? || rows[at.value].revoked then Lost
    else if Find(rows, next.hash).Some? then Failed
    else Won
  }

  datatype Redeemed = Redeemed(user: string, resource: string, scopes: seq<string>, next: Option<string>,
                               amr: string, authTime: int)
  datatype Answer =
    | Granted(out: Redeemed)
    | Unknown
    | Reused
    | OtherClient
    | Expired
    | InvalidScope(scope: string)
    | Broken

  function FirstOutside(granted: seq<string>, requested: seq<string>): (r: Option<string>)
    ensures r.None? <==> forall i :: 0 <= i < |requested| ==> requested[i] in granted
    ensures r.Some? ==> r.value in requested && r.value !in granted
  {
    if requested == [] then None
    else if requested[0] !in granted then Some(requested[0])
    else FirstOutside(granted, requested[1..])
  }

  // The answer once the presented row has been read.
  function Check(row: Row, app: string, requested: seq<string>, now: int): (r: Option<Answer>)
    ensures r.Some? ==> !r.value.Granted?
  {
    if row.revoked then Some(Reused)
    else if row.app != app then Some(OtherClient)
    else if row.expires <= now then Some(Expired)
    else
      match FirstOutside(row.grant.scopes, requested)
      case Some(sc) => Some(InvalidScope(sc))
      case None => None
  }

  // A client that narrows offline_access away is handed no successor, although
  // its own token is spent.
  function Handed(row: Row, requested: seq<string>, next: string): Redeemed {
    var scopes := if requested != [] then requested else row.grant.scopes;
    Redeemed(row.grant.user, row.grant.resource, scopes, if "offline_access" in scopes then Some(next) else None,
             row.grant.amr, row.grant.authTime)
  }

  // The answer to one redemption and the table it leaves.
  ghost function Redemption(
      rows: seq<Row>, hash: string, app: string, requested: seq<string>, now: int, lifetime: int, next: string)
    : (Answer, seq<Row>)
    requires Linked(rows)
  {
    var at := Find(rows, hash);
    if at.None? then (Unknown, rows)
    else
      var row := rows[at.value];
      match Check(row, app, requested, now)
      case Some(answer) => (answer, if answer.Reused? then FamilyRevoked(rows, hash) else rows)
      case None =>
        if Find(rows, next).Some? then (Broken, rows)
        else (Granted(Handed(row, requested, next)),
              Rotated(rows, at.value, Successor(row, app, next, now + lifetime)))
  }

  predicate MayRedeem(row: Row, app: string, requested: seq<string>, now: int) {
    !row.revoked && row.app == app && now < row.expires && forall sc :: sc in requested ==> sc in row.grant.scopes
  }

  // Which redemptions succeed, what the client is then answered and what the
  // table gains, and which failure is reported when.
  lemma RedemptionMeaning(
      rows: seq<Row>, hash: string, app: string, requested: seq<string>, now: int, lifetime: int, next: string)
    requires Linked(rows)
    ensures var (answer, after) := Redemption(rows, hash, app, requested, now, lifetime, next);
            var at := Find(rows, hash);
            && (answer == Unknown <==> at.None?)
            && (at.Some? ==>
                  var row := rows[at.value];
                  && (answer == Reused <==> row.revoked)
                  && (answer == OtherClient <==> !row.revoked && row.app != app)
                  && (answer == Expired <==> !row.revoked && row.app == app && row.expires <= now)
                  && (answer.InvalidScope? ==> answer.scope in requested && answer.scope !in row.grant.scopes)
                  && (answer == Broken <==> MayRedeem(row, app, requested, now) && Find(rows, next).Some?)
                  && (answer.Granted? <==> MayRedeem(row, app, requested, now) && Find(rows, next).None?)
                  && (answer.Granted? ==>
                        var scopes := if requested != [] then requested else row.grant.scopes;
                        && answer.out == Redeemed(row.grant.user, row.grant.resource, scopes,
                                                  if "offline_access" in scopes then Some(next) else None,
                                                  row.grant.amr, row.grant.authTime)
                        && after == rows[at.value := row.(revoked := true)]
                                    + [Row(next, app, row.grant, now + lifetime, hash, false)]))
            && (!answer.Granted? && answer != Reused ==> after == rows)
  {
    hide Linked, Find;
    var at := Find(rows, hash);
    if at.Some? {
      var outside := FirstOutside(rows[at.value].grant.scopes, requested);
      hide FirstOutside;
      assert outside.None? <==> forall sc :: sc in requested ==> sc in rows[at.value].grant.scopes;
    }
  }

  // ---- Links ----

  // a and b are neighbours in a chain.
  ghost predicate Link(rows: seq<Row>, a: string, b: string) {
    exists i :: 0 <= i < |rows| && LinkAt(rows[i], a, b)
  }

  ghost predicate LinkAt(row: Row, a: string, b: string) {
    row.parent != "" && ((row.hash == a && row.parent == b) || (row.hash == b && row.parent == a))
  }

  // Every link from a seen token leads to a token that is seen or waiting.
  ghost predicate Explored(rows: seq<Row>, seen: set<string>, waiting: seq<string>) {
    forall a, b :: a in seen && Link(rows, a, b) ==> b in seen || b in waiting
  }

  ghost predicate Kin(rows: seq<Row>, hash: string, h: string)
    requires Linked(rows)
  {
    h == hash || exists i :: 0 <= i < |rows| && rows[i].hash == h && Related(rows, hash, i)
  }

  lemma LinkKeepsKin(rows: seq<Row>, hash: string, a: string, b: string)
    requires Linked(rows) && Kin(rows, hash, a) && Link(rows, a, b)
    ensures Kin(rows, hash, b)
  {
    var i :| 0 <= i < |rows| && LinkAt(rows[i], a, b);
    var p := Parent(rows, i);
    RootOfChild(rows, i, p);
    var x, y := if rows[i].hash == a then i else p, if rows[i].hash == a then p else i;
    assert rows[x].hash == a && rows[y].hash == b && Root(rows, x) == Root(rows, y);
    if a == hash {
      assert Related(rows, hash, y);
    } else {
      var k :| 0 <= k < |rows| && rows[k].hash == a && Related(rows, hash, k);
      assert k == x;
      assert Related(rows, hash, y);
    }
  }

  lemma {:induction false} UpToRoot(rows: seq<Row>, seen: set<string>, i: nat)
    requires Linked(rows) && Explored(rows, seen, []) && i < |rows| && rows[i].hash in seen
    ensures rows[Root(rows, i)].hash in seen
    decreases i
  {
    if rows[i].parent != "" {
      assert LinkAt(rows[i], rows[i].hash, rows[i].parent);
      UpToRoot(rows, seen, Parent(rows, i));
    }
  }

  lemma {:induction false} DownFromRoot(rows: seq<Row>, seen: set<string>, i: nat)
    requires Linked(rows) && Explored(rows, seen, []) && i < |rows| && rows[Root(rows, i)].hash in seen
    ensures rows[i].hash in seen
    decreases i
  {
    if rows[i].parent != "" {
      DownFromRoot(rows, seen, Parent(rows, i));
      assert LinkAt(rows[i], rows[i].parent, rows[i].hash);
    }
  }

  lemma KinIsRelated(rows: seq<Row>, hash: string, i: nat)
    requires Linked(rows) && i < |rows| && Kin(rows, hash, rows[i].hash)
    ensures Related(rows, hash, i)
  {
    if rows[i].hash != hash {
      var k :| 0 <= k < |rows| && rows[k].hash == rows[i].hash && Related(rows, hash, k);
      assert k == i;
    }
  }

  // A set closed under links, all of it kin, is the whole chain.
  lemma ClosedIsFamily(rows: seq<Row>, hash: string, seen: set<string>)
    requires Linked(rows) && hash in seen && Explored(rows, seen, [])
    requires forall h :: h in seen ==> Kin(rows, hash, h)
    ensures Marked(rows, seen) == FamilyRevoked(rows, hash)
  {
    forall i: nat | i < |rows|
      ensures rows[i].hash in seen <==> Related(rows, hash, i)
    {
      if Related(rows, hash, i) {
        var j :| 0 <= j < |rows| && rows[j].hash == hash && Root(rows, j) == Root(rows, i);
        UpToRoot(rows, seen, j);
        DownFromRoot(rows, seen, i);
      }
      if rows[i].hash in seen {
        KinIsRelated(rows, hash, i);
      }
    }
  }

  predicate ParentIs(rows: seq<Row>, hash: string, h: string) {
    exists k :: 0 <= k < |rows| && rows[k].parent != "" && rows[k].hash == hash && rows[k].parent == h
  }

  predicate ChildBefore(rows: seq<Row>, n: nat, hash: string, h: string)
    requires n <= |rows|
  {
    exists k :: 0 <= k < n && rows[k].parent == hash && rows[k].hash == h
  }

  lemma LinkIsParentOrChild(rows: seq<Row>, a: string, b: string)
    requires a != ""
    ensures Link(rows, a, b) <==> ParentIs(rows, a, b) || ChildBefore(rows, |rows|, a, b)
  {
    if ParentIs(rows, a, b) {
      var k :| 0 <= k < |rows| && rows[k].parent != "" && rows[k].hash == a && rows[k].parent == b;
      assert LinkAt(rows[k], a, b);
    }
    if ChildBefore(rows, |rows|, a, b) {
      var k :| 0 <= k < |rows| && rows[k].parent == a && rows[k].hash == b;
      assert LinkAt(rows[k], a, b);
    }
    if Link(rows, a, b) {
      var k :| 0 <= k < |rows| && LinkAt(rows[k], a, b);
    }
  }

  class RefreshStore {
    var rows: seq<Row>

    constructor ()
      ensures rows == []
    {
      rows := [];
    }

    // Revokes the presented token and stores its successor in one transaction;
    // a successor that cannot be stored rolls both back.
    method RotateRefreshToken(hash: string, next: Row) returns (outcome: Outcome)
      requires Unique(rows)
      modifies this
      ensures outcome == RotateOutcome(old(rows), hash, next)
      ensures outcome.Won? ==> rows == Rotated(old(rows), Find(old(rows), hash).value, next)
      ensures !outcome.Won? ==> rows == old(rows)
    {
      var saved := rows;
      var changed := 0;
      for i := 0 to |rows|
        invariant |rows| == |saved| && 0 <= changed <= 1
        invariant changed == 0 ==> rows == saved && forall k :: 0 <= k < i ==> saved[k].hash != hash || saved[k].revoked
        invariant changed == 1 ==>
                    exists k :: 0 <= k < i && saved[k].hash == hash && !saved[k].revoked
                                && rows == saved[k := saved[k].(revoked := true)]
      {
        if rows[i].hash == hash && !rows[i].revoked {
          rows := rows[i := rows[i].(revoked := true)];
          changed := changed + 1;
        }
      }
      if changed != 1 {
        return Lost;
      }
      SameHashes(saved, rows, next.hash);
      if Find(rows, next.hash).Some? {
        rows := saved;
        return Failed;
      }
      rows := rows + [next];
      outcome := Won;
    }

    method RevokeRefreshTokensForAuthCode(code: string)
      modifies this
      ensures rows == CodeRevoked(old(rows), code)
    {
      if code == "" {
        return;
      }
      for i := 0 to |rows|
        invariant |rows| == |old(rows)|
        invariant forall k :: 0 <= k < |rows| ==>
                    rows[k] == if k < i then CodeRevoked(old(rows), code)[k] else old(rows)[k]
      {
        if rows[i].grant.code == code && !rows[i].revoked {
          rows := rows[i := rows[i].(revoked := true)];
        }
      }
    }

    // One redemption with nothing in between.
    method RedeemRefreshToken(hash: string, app: string, requested: seq<string>, now: int, lifetime: int, next: string)
      returns (r: Answer)
      requires Linked(rows) && hash != ""
      modifies this
      ensures (r, rows) == Redemption(old(rows), hash, app, requested, now, lifetime, next)
      ensures var at := Find(old(rows), hash);
              && (r.Granted? <==> && at.Some? && MayRedeem(old(rows)[at.value], app, requested, now)
                                  && Find(old(rows), next).None?)
              && (r.Granted? ==>
                    r.out.scopes == if requested != [] then requested else old(rows)[at.value].grant.scopes)
    {
      RedemptionMeaning(rows, hash, app, requested, now, lifetime, next);
      var at := Find(rows, hash);
      if at.None? {
        return Unknown;
      }
      var row := rows[at.value];
      if row.revoked {
        RevokeRefreshTokenFamily(hash);
        return Reused;
      }
      if row.app != app {
        return OtherClient;
      }
      if row.expires <= now {
        return Expired;
      }
      var outside := FirstOutside(row.grant.scopes, requested);
      if outside.Some? {
        return InvalidScope(outside.value);
      }
      var outcome := RotateRefreshToken(hash, Successor(row, app, next, now + lifetime));
      match outcome {
        case Failed => r := Broken;
        case Won => r := Granted(Handed(row, requested, next));
      }
    }

    method RevokeRefreshTokenFamily(hash: string)
      requires Linked(rows) && hash != ""
      modifies this
      ensures rows == FamilyRevoked(old(rows), hash)
    {
      var seen := Explore(hash);
      ClosedIsFamily(rows, hash, seen);
      var left := seen;
      while left != {}
        invariant left <= seen && rows == Marked(old(rows), seen - left)
        decreases left
      {
        var h :| h in left;
        rows := Marked(rows, {h});
        left := left - {h};
      }
      assert seen - left == seen;
    }

    // The parent and the children of hash that have not been seen.
    method Unseen(hash: string, seen: set<string>) returns (r: seq<string>)
      requires Linked(rows) && hash != ""
      ensures forall h :: h in r <==> h !in seen && Link(rows, hash, h)
    {
      var up := UnseenParent(hash, seen);
      var down := UnseenChildren(hash, seen);
      hide Linked, Link, ParentIs, ChildBefore;
      r := up + down;
      forall h
        ensures Link(rows, hash, h) <==> ParentIs(rows, hash, h) || ChildBefore(rows, |rows|, hash, h)
      {
        LinkIsParentOrChild(rows, hash, h);
      }
    }

    method UnseenParent(hash: string, seen: set<string>) returns (r: seq<string>)
      requires Unique(rows)
      ensures forall h :: h in r <==> h !in seen && ParentIs(rows, hash, h)
    {
      r := [];
      var at := Find(rows, hash);
      if at.Some? && rows[at.value].parent != "" && rows[at.value].parent !in seen {
        r := [rows[at.value].parent];
      }
    }

    method UnseenChildren(hash: string, seen: set<string>) returns (r: seq<string>)
      ensures forall h :: h in r <==> h !in seen && ChildBefore(rows, |rows|, hash, h)
    {
      r := [];
      for i := 0 to |rows|
        invariant forall h :: h in r <==> h !in seen && ChildBefore(rows, i, hash, h)
      {
        if rows[i].parent == hash && rows[i].hash !in seen {
          r := r + [rows[i].hash];
        }
      }
    }

    method Explore(hash: string) returns (seen: set<string>)
      requires Linked(rows) && hash != ""
      ensures hash in seen && Explored(rows, seen, []) && forall h :: h in seen ==> Kin(rows, hash, h)
    {
      seen := {};
      var frontier := [hash];
      ghost var all := (set i | 0 <= i < |rows| :: rows[i].hash) + {hash};
      while frontier != []
        invariant hash in seen || hash in frontier
        invariant Explored(rows, seen, frontier)
        invariant forall h :: h in seen || h in frontier ==> Kin(rows, hash, h)
        invariant seen <= all && forall h :: h in frontier ==> h != ""
        decreases all - seen, |frontier|
      {
        var h := frontier[|frontier| - 1];
        ghost var before := frontier;
        frontier := frontier[..|frontier| - 1];
        assert before == frontier + [h];
        if h !in seen {
          seen := seen + {h};
          var more := Unseen(h, seen);
          forall x | x in more
            ensures Kin(rows, hash, x) && x != ""
          {
            LinkKeepsKin(rows, hash, h, x);
          }
          frontier := frontier + more;
          KinIsKnown(rows, hash, h);
        }
      }
    }
  }

  lemma KinIsKnown(rows: seq<Row>, hash: string, h: string)
    requires Linked(rows) && Kin(rows, hash, h)
    ensures h in (set i | 0 <= i < |rows| :: rows[i].hash) + {hash}
  {
  }

  lemma {:induction false} SameHashes(a: seq<Row>, b: seq<Row>, hash: string)
    requires |a| == |b| && forall i :: 0 <= i < |a| ==> a[i].hash == b[i].hash
    ensures Find(a, hash) == Find(b, hash)
  {
    if a != [] {
      SameHashes(a[..|a| - 1], b[..|b| - 1], hash);
    }
  }
}
